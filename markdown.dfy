/** `markdown_table`: the metadata dict as a Markdown table whose columns are
    20 characters wide. Each cell is the value's text cut into chunks of at
    most 18 characters, joined with `<br>` and centred; every line of the
    file is framed by `|`. */
module Markdown {

  import opened Strings
  import opened Json
  import opened Dicts
  import opened CoreMetadata

  const COLUMN_WIDTH := 20
  /** `col_w - 2` */
  const CHUNK := 18
  const BREAK := "<br>"

  // ---------------------------------------------------------------------
  // Cells
  // ---------------------------------------------------------------------

  /** A value `str()` is modelled for: anything but a list or an object. */
  predicate IsScalar(v: JValue)
  {
    !v.JArr? && !v.JObj?
  }

  /** `str(v)` */
  function PyStr(v: JValue): string
    requires IsScalar(v)
  {
    match v
    case JNull => "None"
    case JBool(b) => if b then "True" else "False"
    case JNum(n) => IntString(n)
    case JStr(s) => s
  }

  /** `[s[i:i+18] for i in range(0, len(s), 18)]`: consecutive pieces of
      18 characters, the last one possibly shorter. */
  function Chunks(s: string): (cs: seq<string>)
    ensures |cs| == (|s| + CHUNK - 1) / CHUNK
    ensures forall k :: 0 <= k < |cs| ==> 0 < |cs[k]| <= CHUNK
    ensures forall k :: 0 <= k < |cs| - 1 ==> |cs[k]| == CHUNK
    decreases |s|
  {
    if s == [] then []
    else if |s| <= CHUNK then [s]
    else [s[..CHUNK]] + Chunks(s[CHUNK..])
  }

  /** `"".join` of a sequence that starts with `x`. */
  lemma {:induction false} ConcatCons(x: string, rest: seq<string>)
    ensures Concat([x] + rest) == x + Concat(rest)
    decreases |rest|
  {
    if rest != [] {
      var init := rest[..|rest| - 1];
      assert ([x] + rest)[..|rest|] == [x] + init;
      ConcatCons(x, init);
    }
  }

  /** The chunks put back together are the text. */
  lemma {:induction false} ChunksConcat(s: string)
    ensures Concat(Chunks(s)) == s
    decreases |s|
  {
    if |s| > CHUNK {
      ChunksConcat(s[CHUNK..]);
      ConcatCons(s[..CHUNK], Chunks(s[CHUNK..]));
      assert s[..CHUNK] + s[CHUNK..] == s;
    } else if s != [] {
      assert Concat([s]) == Concat([]) + s;
    }
  }

  /** The extra space goes to the left exactly when the margin and the
      width are both odd (CPython's `str.center`). */
  function LeftMargin(len: nat, width: nat): (l: nat)
    ensures len < width ==> l <= width - len
  {
    if len >= width then 0
    else (width - len) / 2 + (if (width - len) % 2 == 1 && width % 2 == 1 then 1 else 0)
  }

  /** `s.center(width)` */
  function Center(s: string, width: nat): (c: string)
    ensures |c| == if |s| >= width then |s| else width
    ensures c[LeftMargin(|s|, width)..LeftMargin(|s|, width) + |s|] == s
    ensures forall k :: 0 <= k < LeftMargin(|s|, width) ==> c[k] == ' '
    ensures forall k :: LeftMargin(|s|, width) + |s| <= k < |c| ==> c[k] == ' '
    ensures var right := |c| - |s| - LeftMargin(|s|, width);
      LeftMargin(|s|, width) <= right + 1 && right <= LeftMargin(|s|, width) + 1
  {
    var l := LeftMargin(|s|, width);
    if |s| >= width then s
    else
      var c := Repeat(' ', l) + s + Repeat(' ', width - |s| - l);
      assert c[l..l + |s|] == s;
      c
  }

  /** One body cell: the value's text in chunks of 18, joined by `<br>`
      and centred to the column width. */
  function Cell(v: JValue): string
    requires IsScalar(v)
  {
    Center(Join(Chunks(PyStr(v)), BREAK), COLUMN_WIDTH)
  }

  /** A short value fills its column and keeps its text whole. */
  lemma ShortCell(v: JValue)
    requires IsScalar(v) && 0 < |PyStr(v)| <= CHUNK
    ensures |Cell(v)| == COLUMN_WIDTH
    ensures Cell(v)[LeftMargin(|PyStr(v)|, COLUMN_WIDTH)..LeftMargin(|PyStr(v)|, COLUMN_WIDTH) + |PyStr(v)|] == PyStr(v)
  {
    assert Chunks(PyStr(v)) == [PyStr(v)];
  }

  // ---------------------------------------------------------------------
  // Rows
  // ---------------------------------------------------------------------

  predicate Scalars(rec: Record)
  {
    forall i :: 0 <= i < |rec| ==> IsScalar(rec[i].1)
  }

  /** The cells of one record: a value is shown only when its key is a
      header, in the record's own order. */
  function Cells(rec: Record, headers: seq<string>): seq<string>
    requires Scalars(rec)
  {
    if rec == [] then []
    else
      var last := rec[|rec| - 1];
      Cells(rec[..|rec| - 1], headers) + (if last.0 in headers then [Cell(last.1)] else [])
  }

  /** The positions of the record whose key is a header, in increasing
      order. */
  function Shown(rec: Record, headers: seq<string>): (ix: seq<nat>)
    ensures forall j :: 0 <= j < |ix| ==> ix[j] < |rec| && rec[ix[j]].0 in headers
    ensures forall j, k :: 0 <= j < k < |ix| ==> ix[j] < ix[k]
    ensures forall i :: 0 <= i < |rec| && rec[i].0 in headers ==> i in ix
  {
    if rec == [] then []
    else
      var ix := Shown(rec[..|rec| - 1], headers);
      ix + (if rec[|rec| - 1].0 in headers then [|rec| - 1] else [])
  }

  /** The cells are the values at the shown positions, in that order. */
  lemma {:induction false} CellsAreShown(rec: Record, headers: seq<string>)
    requires Scalars(rec)
    ensures |Cells(rec, headers)| == |Shown(rec, headers)|
    ensures forall j :: 0 <= j < |Shown(rec, headers)| ==>
      Cells(rec, headers)[j] == Cell(rec[Shown(rec, headers)[j]].1)
    decreases |rec|
  {
    if rec != [] {
      var init := rec[..|rec| - 1];
      var last := rec[|rec| - 1];
      CellsAreShown(init, headers);
      var cells, shown := Cells(init, headers), Shown(init, headers);
      var c, s := Cells(rec, headers), Shown(rec, headers);
      assert c == cells + (if last.0 in headers then [Cell(last.1)] else []);
      assert s == shown + (if last.0 in headers then [|rec| - 1] else []);
      forall j | 0 <= j < |s|
        ensures c[j] == Cell(rec[s[j]].1)
      {
        if j < |shown| {
          assert c[j] == cells[j] && s[j] == shown[j];
          assert init[shown[j]] == rec[shown[j]];
        } else {
          assert c[j] == Cell(last.1) && s[j] == |rec| - 1;
        }
      }
    }
  }

  /** A record whose keys are exactly the headers shows every value, in
      order: each body row has one cell per column. */
  lemma FullRecordCells(rec: Record, headers: seq<string>)
    requires Scalars(rec) && Keys(rec) == headers
    ensures |Cells(rec, headers)| == |headers|
    ensures forall i :: 0 <= i < |rec| ==> Cells(rec, headers)[i] == Cell(rec[i].1)
  {
    CellsAreShown(rec, headers);
    ShownAll(rec, headers);
  }

  /** When every key is a header, every position is shown. */
  lemma {:induction false} ShownAll(rec: Record, headers: seq<string>)
    requires forall i :: 0 <= i < |rec| ==> rec[i].0 in headers
    ensures Shown(rec, headers) == seq(|rec|, i => i)
    decreases |rec|
  {
    if rec != [] {
      ShownAll(rec[..|rec| - 1], headers);
      assert seq(|rec| - 1, i => i) + [|rec| - 1] == seq(|rec|, i => i);
    }
  }

  /** `'|'.join(s.center(col_w) for s in headers)` */
  function HeaderRow(headers: seq<string>): string
  {
    Join(Centred(headers), "|")
  }

  function Centred(headers: seq<string>): (cs: seq<string>)
    ensures |cs| == |headers|
    ensures forall i :: 0 <= i < |headers| ==> cs[i] == Center(headers[i], COLUMN_WIDTH)
  {
    seq(|headers|, i requires 0 <= i < |headers| => Center(headers[i], COLUMN_WIDTH))
  }

  /** `'|'.join('-' * col_w for x in range(n))` */
  function SeparatorRow(n: nat): string
  {
    Join(Rules(n), "|")
  }

  function Rules(n: nat): (rs: seq<string>)
    ensures |rs| == n && forall i :: 0 <= i < n ==> rs[i] == Repeat('-', COLUMN_WIDTH)
  {
    seq(n, _ => Repeat('-', COLUMN_WIDTH))
  }

  /** Each header is one column of the header row: splitting at `|` gives
      the centred headers back, as long as no header contains `|`. */
  lemma HeaderColumns(headers: seq<string>)
    requires |headers| >= 1
    requires forall i :: 0 <= i < |headers| ==> '|' !in headers[i]
    ensures Split(HeaderRow(headers), '|') == Centred(headers)
  {
    forall i | 0 <= i < |headers|
      ensures '|' !in Centred(headers)[i]
    {
      var h := headers[i];
      var c := Center(h, COLUMN_WIDTH);
      var l := LeftMargin(|h|, COLUMN_WIDTH);
      forall k | 0 <= k < |c|
        ensures c[k] != '|'
      {
        if l <= k < l + |h| {
          assert c[k] == c[l..l + |h|][k - l] == h[k - l];
        }
      }
    }
    SplitJoin(Centred(headers), '|');
  }

  /** The separator row has one run of 20 dashes per column. */
  lemma SeparatorColumns(n: nat)
    requires n >= 1
    ensures Split(SeparatorRow(n), '|') == Rules(n)
    ensures |SeparatorRow(n)| == (COLUMN_WIDTH + 1) * n - 1
  {
    SplitJoin(Rules(n), '|');
    SeparatorLength(n);
  }

  lemma {:induction false} SeparatorLength(n: nat)
    requires n >= 1
    ensures |Join(Rules(n), "|")| == (COLUMN_WIDTH + 1) * n - 1
  {
    if n > 1 {
      SeparatorLength(n - 1);
      assert Rules(n) == Rules(n - 1) + [Repeat('-', COLUMN_WIDTH)];
      JoinSnoc(Rules(n - 1), Repeat('-', COLUMN_WIDTH), "|");
    }
  }

  /** `'|'.join(<cells of the record>)` */
  function BodyRow(rec: Record, headers: seq<string>): string
    requires Scalars(rec)
  {
    Join(Cells(rec, headers), "|")
  }

  predicate AllScalars(entries: Entries)
  {
    forall r :: 0 <= r < |entries| ==> Scalars(entries[r].1)
  }

  /** `rows` once the loop over the records is done. */
  function Lines(entries: Entries, headers: seq<string>): (lines: seq<string>)
    requires AllScalars(entries)
    ensures |lines| == |entries| + 2
    ensures lines[0] == HeaderRow(headers) && lines[1] == SeparatorRow(|headers|)
    ensures forall r :: 0 <= r < |entries| ==> lines[r + 2] == BodyRow(entries[r].1, headers)
  {
    [HeaderRow(headers), SeparatorRow(|headers|)] +
      seq(|entries|, r requires 0 <= r < |entries| => BodyRow(entries[r].1, headers))
  }

  /** What `print("|" + row + "|", file=f)` writes for each row. */
  function Written(lines: seq<string>): string
  {
    Terminated(Framed(lines), "\n")
  }

  function Framed(lines: seq<string>): (fs: seq<string>)
    ensures |fs| == |lines| && forall i :: 0 <= i < |lines| ==> fs[i] == "|" + lines[i] + "|"
  {
    seq(|lines|, i requires 0 <= i < |lines| => "|" + lines[i] + "|")
  }

  /** Splitting the file at newlines gives the framed rows back, followed
      by the empty text after the last newline, as long as no row contains
      a newline. */
  lemma WrittenLines(lines: seq<string>)
    requires forall i :: 0 <= i < |lines| ==> '\n' !in lines[i]
    ensures Split(Written(lines), '\n') == Framed(lines) + [""]
  {
    TerminatedIsJoin(Framed(lines), '\n');
    var parts := Framed(lines) + [""];
    forall k | 0 <= k < |lines|
      ensures '\n' !in parts[k]
    {
      FramedHasNoNewline(lines[k]);
    }
    SplitJoin(parts, '\n');
  }

  lemma FramedHasNoNewline(line: string)
    requires '\n' !in line
    ensures '\n' !in "|" + line + "|"
  {
    var f := "|" + line + "|";
    forall j | 0 <= j < |f|
      ensures f[j] != '\n'
    {
      if 0 < j < |f| - 1 {
        assert f[j] == line[j - 1];
      }
    }
  }

  // ---------------------------------------------------------------------
  // The table of the collected metadata
  // ---------------------------------------------------------------------

  /** For the dict `get_core_metadata` fills from empty, the headers are
      the ten fields and every body row shows all ten values in order. */
  lemma CollectedTable(ids: seq<ImageId>, user: string, images: map<string, JValue>)
    requires ids != []
    requires AllScalars(FillRows([], ids, user, images))
    ensures var entries := FillRows([], ids, user, images);
      entries != [] && Keys(entries[|entries| - 1].1) == FIELDS &&
      forall r :: 0 <= r < |entries| ==>
        Keys(entries[r].1) == FIELDS && |Cells(entries[r].1, FIELDS)| == |FIELDS| &&
        forall i :: 0 <= i < |FIELDS| ==> Cells(entries[r].1, FIELDS)[i] == Cell(entries[r].1[i].1)
  {
    var entries := FillRows([], ids, user, images);
    FillRowsShape([], ids, user, images);
    forall r | 0 <= r < |entries|
      ensures |Cells(entries[r].1, FIELDS)| == |FIELDS|
      ensures forall i :: 0 <= i < |FIELDS| ==> Cells(entries[r].1, FIELDS)[i] == Cell(entries[r].1[i].1)
    {
      FullRecordCells(entries[r].1, FIELDS);
    }
  }
}
