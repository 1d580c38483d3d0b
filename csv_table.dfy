/** `csvToHTMLTable`: the CSV file the OMERO export writes becomes the HTML
    table that the ELN entry shows. The header row names the columns; the
    `Name` cell of every record turns into a link to the image in the OMERO
    web client, and the `Tags` and `Key-Value Pairs` cells, which hold Python
    list literals, are flattened to `name,` and `key:value;` runs. */
module CsvTable {

  import opened Strings
  import opened Json
  import Writer

  /** One record after the header row: its cells as read, and the lists that
      its `Tags` and `Key-Value Pairs` cells evaluate to (only read when the
      header has such a column). */
  datatype CsvRow = CsvRow(cells: seq<string>, tags: seq<string>, pairs: seq<(string, string)>)

  /** `list.index(x)`: the first position of `x`, ValueError when absent. */
  function Position(xs: seq<string>, x: string): (r: Outcome<nat>)
    ensures r.Ok? <==> x in xs
    ensures r.Raised? ==> r.error == ValueError
    ensures r.Ok? ==> r.value < |xs| && xs[r.value] == x
    ensures r.Ok? ==> forall j :: 0 <= j < r.value ==> xs[j] != x
  {
    if xs == [] then Raised(ValueError)
    else if xs[0] == x then Ok(0)
    else
      assert x in xs <==> x in xs[1..] by { assert xs == [xs[0]] + xs[1..]; }
      var i :- Position(xs[1..], x);
      Ok(i + 1)
  }

  /** `xs.index(x) if x in xs else None` */
  function OptionalPosition(xs: seq<string>, x: string): (r: Option<nat>)
    ensures r.Some? <==> x in xs
    ensures r.Some? ==> Position(xs, x) == Ok(r.value)
  {
    if x in xs then Some(Position(xs, x).value) else None
  }

  /** Two different column titles sit at different positions. */
  lemma PositionsDiffer(xs: seq<string>, x: string, y: string)
    requires x != y && x in xs && y in xs
    ensures Position(xs, x).value != Position(xs, y).value
  {
  }

  // ---------------------------------------------------------------------
  // The pieces of the table
  // ---------------------------------------------------------------------

  /** Each text wrapped in the same HTML element, one after the other. */
  function Wrapped(open: string, close: string, xs: seq<string>): string
  {
    if xs == [] then "" else Wrapped(open, close, xs[..|xs| - 1]) + open + xs[|xs| - 1] + close
  }

  /** The flattened `Tags` cell: every tag name followed by a comma. */
  function TagsCell(tags: seq<string>): string
  {
    Terminated(tags, ",")
  }

  /** `key:value` for one pair. */
  function PairTexts(pairs: seq<(string, string)>): (ts: seq<string>)
    ensures |ts| == |pairs|
    ensures forall i :: 0 <= i < |pairs| ==> ts[i] == pairs[i].0 + ":" + pairs[i].1
  {
    seq(|pairs|, i requires 0 <= i < |pairs| => pairs[i].0 + ":" + pairs[i].1)
  }

  /** The flattened `Key-Value Pairs` cell: every `key:value` followed by a
      semicolon. */
  function PairsCell(pairs: seq<(string, string)>): string
  {
    Terminated(PairTexts(pairs), ";")
  }

  /** The link that replaces an image name. */
  function Anchor(id: string, name: string): string
  {
    "<a href=" + Writer.OMERO_URI + "/webclient/?show=image-" + id + ">" + name + "</a>"
  }

  const HEADING := "<h2>OMERO data</h2>"
  const FIGURE := "<figure class='table' style='width:1000px;'><table border='1'>"
  const CLOSING := "</tbody></table></figure>"

  // ---------------------------------------------------------------------
  // The specification of csvToHTMLTable
  // ---------------------------------------------------------------------

  /** `row[idx] = v` when the column exists: IndexError when the record is
      too short. */
  function ReplaceAt(cells: seq<string>, idx: Option<nat>, v: string): (r: Outcome<seq<string>>)
    ensures r.Ok? <==> idx.None? || idx.value < |cells|
    ensures r.Raised? ==> r.error == IndexError
    ensures r.Ok? ==> |r.value| == |cells|
    ensures r.Ok? ==> forall k :: 0 <= k < |cells| ==>
      r.value[k] == if idx == Some(k) then v else cells[k]
  {
    if idx.None? then Ok(cells)
    else if idx.value < |cells| then Ok(cells[idx.value := v])
    else Raised(IndexError)
  }

  /** The first loop of `csvToHTMLTable` on one record: the tags cell, then
      the key-value cell, are replaced by their flattened text. */
  function CleanRow(row: CsvRow, tagIdx: Option<nat>, kvIdx: Option<nat>): (r: Outcome<seq<string>>)
    ensures r.Ok? <==> (tagIdx.None? || tagIdx.value < |row.cells|) && (kvIdx.None? || kvIdx.value < |row.cells|)
    ensures r.Raised? ==> r.error == IndexError
    ensures r.Ok? ==> |r.value| == |row.cells|
    ensures r.Ok? ==> forall k :: 0 <= k < |row.cells| ==>
      r.value[k] == if kvIdx == Some(k) then PairsCell(row.pairs)
                    else if tagIdx == Some(k) then TagsCell(row.tags)
                    else row.cells[k]
  {
    var cells :- ReplaceAt(row.cells, tagIdx, TagsCell(row.tags));
    ReplaceAt(cells, kvIdx, PairsCell(row.pairs))
  }

  /** The first loop over all records, stopping at the first IndexError. */
  function CleanRows(rows: seq<CsvRow>, tagIdx: Option<nat>, kvIdx: Option<nat>): (r: Outcome<seq<seq<string>>>)
    ensures r.Ok? <==> forall i :: 0 <= i < |rows| ==> CleanRow(rows[i], tagIdx, kvIdx).Ok?
    ensures r.Raised? ==> r.error == IndexError
    ensures r.Ok? ==> |r.value| == |rows|
    ensures r.Ok? ==> forall i :: 0 <= i < |rows| ==> r.value[i] == CleanRow(rows[i], tagIdx, kvIdx).value
  {
    if rows == [] then Ok([])
    else
      var n := |rows| - 1;
      assert forall i :: 0 <= i < n ==> rows[..n][i] == rows[i];
      var init :- CleanRows(rows[..n], tagIdx, kvIdx);
      var last :- CleanRow(rows[n], tagIdx, kvIdx);
      var all := init + [last];
      assert forall i :: 0 <= i < |rows| ==> all[i] == CleanRow(rows[i], tagIdx, kvIdx).value by {
        forall i | 0 <= i < |rows|
          ensures all[i] == CleanRow(rows[i], tagIdx, kvIdx).value
        {
          if i < n {
            assert all[i] == init[i] && rows[..n][i] == rows[i];
          }
        }
      }
      Ok(all)
  }

  /** One `<tr>` of the body: the name cell becomes a link to the image
      whose id is in the ID cell. */
  function RowHtml(cells: seq<string>, nameIdx: nat, idIdx: nat): (r: Outcome<string>)
    ensures r.Ok? <==> nameIdx < |cells| && idIdx < |cells|
    ensures r.Raised? ==> r.error == IndexError
  {
    if idIdx >= |cells| || nameIdx >= |cells| then Raised(IndexError)
    else Ok("<tr>" + Wrapped("<td>", "</td>", cells[nameIdx := Anchor(cells[idIdx], cells[nameIdx])]) + "</tr>")
  }

  /** The second loop over the cleaned records. */
  function BodyRows(rows: seq<seq<string>>, nameIdx: nat, idIdx: nat): (r: Outcome<string>)
    ensures r.Ok? <==> forall i :: 0 <= i < |rows| ==> RowHtml(rows[i], nameIdx, idIdx).Ok?
    ensures r.Raised? ==> r.error == IndexError
    ensures r.Ok? ==> r.value == Concat(RowTexts(rows, nameIdx, idIdx))
  {
    if rows == [] then Ok("")
    else
      var n := |rows| - 1;
      assert forall i :: 0 <= i < n ==> rows[..n][i] == rows[i];
      var init :- BodyRows(rows[..n], nameIdx, idIdx);
      var last :- RowHtml(rows[n], nameIdx, idIdx);
      RowTextsPrefix(rows, nameIdx, idIdx);
      Ok(init + last)
  }

  /** Dropping the last record drops its `<tr>`. */
  lemma RowTextsPrefix(rows: seq<seq<string>>, nameIdx: nat, idIdx: nat)
    requires rows != []
    requires forall i :: 0 <= i < |rows| ==> RowHtml(rows[i], nameIdx, idIdx).Ok?
    ensures RowTexts(rows, nameIdx, idIdx)[..|rows| - 1] == RowTexts(rows[..|rows| - 1], nameIdx, idIdx)
  {
  }

  /** The `<tr>` of every record that has its name and ID cells. */
  function RowTexts(rows: seq<seq<string>>, nameIdx: nat, idIdx: nat): (trs: seq<string>)
    requires forall i :: 0 <= i < |rows| ==> RowHtml(rows[i], nameIdx, idIdx).Ok?
    ensures |trs| == |rows|
    ensures forall i :: 0 <= i < |rows| ==> trs[i] == RowHtml(rows[i], nameIdx, idIdx).value
  {
    seq(|rows|, i requires 0 <= i < |rows| => RowHtml(rows[i], nameIdx, idIdx).value)
  }

  /** `csvToHTMLTable(path)` on the header row and the records of the file. */
  function HtmlTable(headers: seq<string>, rows: seq<CsvRow>): Outcome<string>
  {
    var nameIdx :- Position(headers, "Name");
    var idIdx :- Position(headers, "ID");
    var cleaned :- CleanRows(rows, OptionalPosition(headers, "Tags"), OptionalPosition(headers, "Key-Value Pairs"));
    var body :- BodyRows(cleaned, nameIdx, idIdx);
    Ok(HEADING + (FIGURE + "<thead><tr>" + Wrapped("<th>", "</th>", headers) + "</tr></thead>" +
       "<tbody>" + body + CLOSING))
  }

  // ---------------------------------------------------------------------
  // What the table promises
  // ---------------------------------------------------------------------

  /** The tags cell splits at its commas back into the tag names, followed by
      the empty text after the last comma, when no name holds a comma. */
  lemma TagsCellSplits(tags: seq<string>)
    requires forall k :: 0 <= k < |tags| ==> ',' !in tags[k]
    ensures Split(TagsCell(tags), ',') == tags + [""]
  {
    TerminatedIsJoin(tags, ',');
    SplitJoin(tags + [""], ',');
  }

  /** The key-value cell splits at its semicolons into one `key:value` text
      per pair, and each of those splits at its colon into key and value,
      when no key or value holds a colon or a semicolon. */
  lemma PairsCellSplits(pairs: seq<(string, string)>)
    requires forall k :: 0 <= k < |pairs| ==>
      ':' !in pairs[k].0 && ':' !in pairs[k].1 && ';' !in pairs[k].0 && ';' !in pairs[k].1
    ensures |Split(PairsCell(pairs), ';')| == |pairs| + 1
    ensures Split(PairsCell(pairs), ';')[|pairs|] == ""
    ensures forall k :: 0 <= k < |pairs| ==>
      Split(Split(PairsCell(pairs), ';')[k], ':') == [pairs[k].0, pairs[k].1]
  {
    var texts := PairTexts(pairs);
    forall k | 0 <= k < |texts| ensures ';' !in texts[k] {
      assert texts[k] == pairs[k].0 + ":" + pairs[k].1;
    }
    TerminatedIsJoin(texts, ';');
    SplitJoin(texts + [""], ';');
    forall k | 0 <= k < |pairs| ensures Split(texts[k], ':') == [pairs[k].0, pairs[k].1] {
      assert Join([pairs[k].0, pairs[k].1], ":") == texts[k];
      SplitJoin([pairs[k].0, pairs[k].1], ':');
    }
  }

  /** Column `h`, when the header has it, lies inside a record of `n` cells. */
  predicate Reaches(headers: seq<string>, h: string, n: nat)
  {
    h in headers ==> Position(headers, h).value < n
  }

  /** A record has every column the conversion indexes. */
  predicate IsComplete(headers: seq<string>, row: CsvRow)
  {
    Reaches(headers, "Name", |row.cells|) && Reaches(headers, "ID", |row.cells|) &&
    Reaches(headers, "Tags", |row.cells|) && Reaches(headers, "Key-Value Pairs", |row.cells|)
  }

  /** Cleaning a complete record keeps its length; an incomplete one raises. */
  lemma CleanRowComplete(headers: seq<string>, row: CsvRow)
    ensures CleanRow(row, OptionalPosition(headers, "Tags"), OptionalPosition(headers, "Key-Value Pairs")).Ok? <==>
      Reaches(headers, "Tags", |row.cells|) && Reaches(headers, "Key-Value Pairs", |row.cells|)
  {
  }

  /** A header without `Name` or `ID` raises ValueError; otherwise a record
      that is too short for one of the columns the conversion indexes raises
      IndexError; otherwise the conversion succeeds. */
  lemma HtmlTableErrors(headers: seq<string>, rows: seq<CsvRow>)
    ensures HtmlTable(headers, rows) == Raised(ValueError) <==> "Name" !in headers || "ID" !in headers
    ensures HtmlTable(headers, rows) == Raised(IndexError) <==>
      "Name" in headers && "ID" in headers && exists i :: 0 <= i < |rows| && !IsComplete(headers, rows[i])
    ensures HtmlTable(headers, rows).Ok? <==>
      "Name" in headers && "ID" in headers && forall i :: 0 <= i < |rows| ==> IsComplete(headers, rows[i])
  {
    if "Name" in headers && "ID" in headers {
      var nameIdx := Position(headers, "Name").value;
      var idIdx := Position(headers, "ID").value;
      var tagIdx := OptionalPosition(headers, "Tags");
      var kvIdx := OptionalPosition(headers, "Key-Value Pairs");
      forall i | 0 <= i < |rows|
        ensures CleanRow(rows[i], tagIdx, kvIdx).Ok? <==>
          Reaches(headers, "Tags", |rows[i].cells|) && Reaches(headers, "Key-Value Pairs", |rows[i].cells|)
      {
        CleanRowComplete(headers, rows[i]);
      }
      var cleaned := CleanRows(rows, tagIdx, kvIdx);
      if cleaned.Ok? {
        assert forall i :: 0 <= i < |rows| ==> |cleaned.value[i]| == |rows[i].cells|;
        assert BodyRows(cleaned.value, nameIdx, idIdx).Ok? <==>
          forall i :: 0 <= i < |rows| ==> IsComplete(headers, rows[i]) by {
          forall i | 0 <= i < |rows|
            ensures RowHtml(cleaned.value[i], nameIdx, idIdx).Ok? <==> IsComplete(headers, rows[i])
          {
          }
        }
      }
    }
  }

  /** What the table shows in cell `k` of a complete record: the name as a
      link to the image, the flattened key-value pairs and tags, and every
      other cell as read. */
  function ShownCell(headers: seq<string>, row: CsvRow, k: nat): string
    requires "Name" in headers && "ID" in headers && IsComplete(headers, row)
    requires k < |row.cells|
  {
    if k == Position(headers, "Name").value then
      Anchor(row.cells[Position(headers, "ID").value], row.cells[k])
    else if "Key-Value Pairs" in headers && k == Position(headers, "Key-Value Pairs").value then
      PairsCell(row.pairs)
    else if "Tags" in headers && k == Position(headers, "Tags").value then
      TagsCell(row.tags)
    else row.cells[k]
  }

  /** The cells of one shown record. */
  function ShownRow(headers: seq<string>, row: CsvRow): (cells: seq<string>)
    requires "Name" in headers && "ID" in headers && IsComplete(headers, row)
    ensures |cells| == |row.cells|
  {
    seq(|row.cells|, k requires 0 <= k < |row.cells| => ShownCell(headers, row, k))
  }

  /** The `<tr>` of every record, in order. */
  function ShownRows(headers: seq<string>, rows: seq<CsvRow>): (trs: seq<string>)
    requires "Name" in headers && "ID" in headers
    requires forall i :: 0 <= i < |rows| ==> IsComplete(headers, rows[i])
    ensures |trs| == |rows|
  {
    seq(|rows|, i requires 0 <= i < |rows| => "<tr>" + Wrapped("<td>", "</td>", ShownRow(headers, rows[i])) + "</tr>")
  }

  /** The `<tr>` of one record, cell by cell as ShownCell says. */
  lemma RowIsShown(headers: seq<string>, row: CsvRow)
    requires "Name" in headers && "ID" in headers && IsComplete(headers, row)
    ensures CleanRow(row, OptionalPosition(headers, "Tags"), OptionalPosition(headers, "Key-Value Pairs")).Ok?
    ensures RowHtml(CleanRow(row, OptionalPosition(headers, "Tags"), OptionalPosition(headers, "Key-Value Pairs")).value,
      Position(headers, "Name").value, Position(headers, "ID").value) ==
      Ok("<tr>" + Wrapped("<td>", "</td>", ShownRow(headers, row)) + "</tr>")
  {
    var nameIdx := Position(headers, "Name").value;
    var idIdx := Position(headers, "ID").value;
    var tagIdx := OptionalPosition(headers, "Tags");
    var kvIdx := OptionalPosition(headers, "Key-Value Pairs");
    var cells := CleanRow(row, tagIdx, kvIdx).value;
    PositionsDiffer(headers, "Name", "ID");
    if "Tags" in headers {
      PositionsDiffer(headers, "Name", "Tags");
      PositionsDiffer(headers, "ID", "Tags");
    }
    if "Key-Value Pairs" in headers {
      PositionsDiffer(headers, "Name", "Key-Value Pairs");
      PositionsDiffer(headers, "ID", "Key-Value Pairs");
    }
    assert cells[idIdx] == row.cells[idIdx];
    var shown := cells[nameIdx := Anchor(cells[idIdx], cells[nameIdx])];
    assert cells[nameIdx] == row.cells[nameIdx];
    assert shown == ShownRow(headers, row);
  }

  /** The whole table: the heading, one `<th>` per header in order, and one
      `<tr>` per record in order whose cells are the shown cells. */
  lemma HtmlTableContent(headers: seq<string>, rows: seq<CsvRow>)
    requires "Name" in headers && "ID" in headers
    requires forall i :: 0 <= i < |rows| ==> IsComplete(headers, rows[i])
    ensures HtmlTable(headers, rows) == Ok(HEADING + (FIGURE + "<thead><tr>" + Wrapped("<th>", "</th>", headers) +
      "</tr></thead>" + "<tbody>" +
      Concat(ShownRows(headers, rows)) + CLOSING))
  {
    var nameIdx := Position(headers, "Name").value;
    var idIdx := Position(headers, "ID").value;
    var tagIdx := OptionalPosition(headers, "Tags");
    var kvIdx := OptionalPosition(headers, "Key-Value Pairs");
    forall i | 0 <= i < |rows|
      ensures CleanRow(rows[i], tagIdx, kvIdx).Ok?
      ensures RowHtml(CleanRow(rows[i], tagIdx, kvIdx).value, nameIdx, idIdx) ==
        Ok("<tr>" + Wrapped("<td>", "</td>", ShownRow(headers, rows[i])) + "</tr>")
    {
      RowIsShown(headers, rows[i]);
    }
    var cleaned := CleanRows(rows, tagIdx, kvIdx).value;
    var body := BodyRows(cleaned, nameIdx, idIdx);
    assert body.Ok?;
    assert RowTexts(cleaned, nameIdx, idIdx) == ShownRows(headers, rows);
  }

  // ---------------------------------------------------------------------
  // The implementation, loop by loop
  // ---------------------------------------------------------------------

  /** Once the records up to `j` have raised, the whole first loop raises. */
  lemma {:induction false} CleanRowsPrefixRaises(rows: seq<CsvRow>, j: nat, tagIdx: Option<nat>, kvIdx: Option<nat>)
    requires j <= |rows|
    requires CleanRows(rows[..j], tagIdx, kvIdx).Raised?
    ensures CleanRows(rows, tagIdx, kvIdx) == CleanRows(rows[..j], tagIdx, kvIdx)
    decreases |rows| - j
  {
    if j < |rows| {
      var n := |rows| - 1;
      assert rows[..n][..j] == rows[..j];
      CleanRowsPrefixRaises(rows[..n], j, tagIdx, kvIdx);
    } else {
      assert rows[..j] == rows;
    }
  }

  /** Once the records up to `j` have raised, the whole second loop raises. */
  lemma {:induction false} BodyRowsPrefixRaises(rows: seq<seq<string>>, j: nat, nameIdx: nat, idIdx: nat)
    requires j <= |rows|
    requires BodyRows(rows[..j], nameIdx, idIdx).Raised?
    ensures BodyRows(rows, nameIdx, idIdx) == BodyRows(rows[..j], nameIdx, idIdx)
    decreases |rows| - j
  {
    if j < |rows| {
      var n := |rows| - 1;
      assert rows[..n][..j] == rows[..j];
      BodyRowsPrefixRaises(rows[..n], j, nameIdx, idIdx);
    } else {
      assert rows[..j] == rows;
    }
  }

  /** The `<th>` loop and the `<td>` loop: each text wrapped in the element. */
  method WrapEach(open: string, close: string, xs: seq<string>) returns (html: string)
    ensures html == Wrapped(open, close, xs)
  {
    html := "";
    for i := 0 to |xs|
      invariant html == Wrapped(open, close, xs[..i])
    {
      assert xs[..i + 1][..i] == xs[..i];
      html := html + open + xs[i] + close;
    }
    assert xs[..|xs|] == xs;
  }

  /** The loops that flatten the tags and the key-value pairs of a record. */
  method Flatten(parts: seq<string>, terminator: string) returns (flat: string)
    ensures flat == Terminated(parts, terminator)
  {
    flat := "";
    for t := 0 to |parts|
      invariant flat == Terminated(parts[..t], terminator)
    {
      assert parts[..t + 1][..t] == parts[..t];
      flat := flat + parts[t] + terminator;
    }
    assert parts[..|parts|] == parts;
  }

  /** One pass of the first loop over the records. */
  method CleanRecord(row: CsvRow, tagIdx: Option<nat>, kvIdx: Option<nat>) returns (r: Outcome<seq<string>>)
    ensures r == CleanRow(row, tagIdx, kvIdx)
  {
    var cells := row.cells;
    if tagIdx.Some? {
      if tagIdx.value >= |cells| {
        return Raised(IndexError);
      }
      var flat := Flatten(row.tags, ",");
      cells := cells[tagIdx.value := flat];
    }
    if kvIdx.Some? {
      if kvIdx.value >= |cells| {
        return Raised(IndexError);
      }
      var flat := Flatten(PairTexts(row.pairs), ";");
      cells := cells[kvIdx.value := flat];
    }
    return Ok(cells);
  }

  /** One pass of the second loop over the records. */
  method RecordHtml(cells: seq<string>, nameIdx: nat, idIdx: nat) returns (r: Outcome<string>)
    ensures r == RowHtml(cells, nameIdx, idIdx)
  {
    if idIdx >= |cells| || nameIdx >= |cells| {
      return Raised(IndexError);
    }
    var row := cells[nameIdx := Anchor(cells[idIdx], cells[nameIdx])];
    var tds := WrapEach("<td>", "</td>", row);
    return Ok("<tr>" + tds + "</tr>");
  }

  /** The text built by the loops of `csvToHTMLTable`, or the exception that
      one of its index operations raises. */
  method CsvToHtmlTable(headers: seq<string>, rows: seq<CsvRow>) returns (r: Outcome<string>)
    ensures r == HtmlTable(headers, rows)
  {
    var nameIdx := Position(headers, "Name");
    if nameIdx.Raised? {
      return Raised(nameIdx.error);
    }
    var idIdx := Position(headers, "ID");
    if idIdx.Raised? {
      return Raised(idIdx.error);
    }
    var ths := WrapEach("<th>", "</th>", headers);
    var table := FIGURE + "<thead><tr>" + ths + "</tr></thead>";

    var cleaned := CleanRecords(rows, OptionalPosition(headers, "Tags"), OptionalPosition(headers, "Key-Value Pairs"));
    if cleaned.Raised? {
      return Raised(cleaned.error);
    }
    var body := RecordsHtml(cleaned.value, nameIdx.value, idIdx.value);
    if body.Raised? {
      return Raised(body.error);
    }
    table := table + "<tbody>" + body.value + CLOSING;
    return Ok(HEADING + table);
  }

  /** The first loop over the records. */
  method CleanRecords(rows: seq<CsvRow>, tagIdx: Option<nat>, kvIdx: Option<nat>) returns (r: Outcome<seq<seq<string>>>)
    ensures r == CleanRows(rows, tagIdx, kvIdx)
  {
    var cleaned: seq<seq<string>> := [];
    for j := 0 to |rows|
      invariant CleanRows(rows[..j], tagIdx, kvIdx) == Ok(cleaned)
    {
      assert rows[..j + 1][..j] == rows[..j];
      var cells := CleanRecord(rows[j], tagIdx, kvIdx);
      if cells.Raised? {
        CleanRowsPrefixRaises(rows, j + 1, tagIdx, kvIdx);
        return Raised(cells.error);
      }
      cleaned := cleaned + [cells.value];
    }
    assert rows[..|rows|] == rows;
    return Ok(cleaned);
  }

  /** The second loop over the records. */
  method RecordsHtml(cleaned: seq<seq<string>>, nameIdx: nat, idIdx: nat) returns (r: Outcome<string>)
    ensures r == BodyRows(cleaned, nameIdx, idIdx)
  {
    var body := "";
    for j := 0 to |cleaned|
      invariant BodyRows(cleaned[..j], nameIdx, idIdx) == Ok(body)
    {
      assert cleaned[..j + 1][..j] == cleaned[..j];
      var tr := RecordHtml(cleaned[j], nameIdx, idIdx);
      if tr.Raised? {
        BodyRowsPrefixRaises(cleaned, j + 1, nameIdx, idIdx);
        return Raised(tr.error);
      }
      body := body + tr.value;
    }
    assert cleaned[..|cleaned|] == cleaned;
    return Ok(body);
  }
}
