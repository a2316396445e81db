/** The markdown views of the palette: a bulleted list under a heading, and a
    table whose columns are padded to the widest cell. Items are given as the
    strings their `Display` / `TableDisplay` implementations produce. */
module Markdown {
  import opened Text

  // ---------------------------------------------------------------------------
  // Lists

  /** Each item behind a `* ` bullet, in input order. */
  function Bullets(items: seq<string>): seq<string>
  {
    seq(|items|, i requires 0 <= i < |items| => "* " + items[i])
  }

  /** `display_as_list`. */
  function DisplayAsList(items: seq<string>, heading: string): string {
    "### " + heading + "\n\n" + Join(Bullets(items), "\n")
  }

  predicate NoNewline(s: string) {
    '\n' !in s
  }

  lemma NoNewlineJoin(parts: seq<string>, sep: string)
    requires forall i :: 0 <= i < |parts| ==> NoNewline(parts[i])
    requires NoNewline(sep)
    ensures NoNewline(Join(parts, sep))
    decreases |parts|
  {
    if |parts| > 1 {
      NoNewlineJoin(parts[1..], sep);
    }
  }

  /** Joining after a nonempty prefix of parts is the prefix joined, the
      separator, and the rest joined. */
  lemma {:induction false} JoinAppend(a: seq<string>, b: seq<string>, sep: string)
    requires a != [] && b != []
    ensures Join(a + b, sep) == Join(a, sep) + sep + Join(b, sep)
    decreases |a|
  {
    if |a| == 1 {
      assert (a + b)[1..] == b;
    } else {
      assert (a + b)[1..] == a[1..] + b;
      JoinAppend(a[1..], b, sep);
    }
  }

  /** The list read line by line: the heading, a blank line, then one bullet
      per item in order (a single empty line when there are no items). */
  lemma DisplayAsListLines(items: seq<string>, heading: string)
    requires NoNewline(heading) && forall i :: 0 <= i < |items| ==> NoNewline(items[i])
    ensures Split(DisplayAsList(items, heading), '\n')
            == ["### " + heading, ""] + (if items == [] then [""] else Bullets(items))
  {
    var bs := Bullets(items);
    var lines := ["### " + heading, ""] + (if items == [] then [""] else bs);
    forall i | 0 <= i < |bs| ensures NoNewline(bs[i]) {
      assert bs[i] == "* " + items[i];
    }
    if items == [] {
      assert Join(lines, "\n") == "### " + heading + "\n" + ("" + "\n" + "");
    } else {
      JoinAppend(["### " + heading, ""], bs, "\n");
      assert Join(["### " + heading, ""], "\n") == "### " + heading + "\n" + "";
    }
    assert Join(lines, "\n") == DisplayAsList(items, heading);
    assert NoNewline("### " + heading);
    SplitJoin(lines, '\n');
  }

  // ---------------------------------------------------------------------------
  // Widths

  /** The number of bytes of a character in UTF-8. */
  function Utf8Len(c: char): (n: nat)
    ensures 1 <= n <= 4 && (n == 1 <==> c as int < 0x80)
  {
    if c as int < 0x80 then 1 else if c as int < 0x800 then 2 else if c as int < 0x1_0000 then 3 else 4
  }

  /** `str::len`: the length in bytes of the UTF-8 encoding. */
  function ByteLen(s: string): (n: nat)
    ensures n >= |s|
    decreases |s|
  {
    if s == [] then 0 else Utf8Len(s[0]) + ByteLen(s[1..])
  }

  predicate IsAscii(s: string) {
    forall i :: 0 <= i < |s| ==> s[i] as int < 0x80
  }

  lemma {:induction false} AsciiByteLen(s: string)
    requires IsAscii(s)
    ensures ByteLen(s) == |s|
    decreases |s|
  {
    if s != [] {
      assert IsAscii(s[1..]) by {
        forall i | 0 <= i < |s[1..]| ensures s[1..][i] as int < 0x80 {
          assert s[1..][i] == s[i + 1];
        }
      }
      AsciiByteLen(s[1..]);
    }
  }

  /** Every row has a cell in column `i`. */
  predicate HasColumn(rows: seq<seq<string>>, i: nat) {
    forall j :: 0 <= j < |rows| ==> i < |rows[j]|
  }

  /** The width of column `i`: the longest of its heading and its cells, in bytes. */
  function ColumnWidth(rows: seq<seq<string>>, i: nat, heading: string): (w: nat)
    requires HasColumn(rows, i)
    ensures w >= ByteLen(heading)
    ensures forall j :: 0 <= j < |rows| ==> w >= ByteLen(rows[j][i])
    ensures w == ByteLen(heading) || exists j :: 0 <= j < |rows| && w == ByteLen(rows[j][i])
    decreases |rows|
  {
    if rows == [] then ByteLen(heading)
    else
      assert HasColumn(rows[1..], i) by {
        forall j | 0 <= j < |rows[1..]| ensures i < |rows[1..][j]| {
          assert rows[1..][j] == rows[j + 1];
        }
      }
      var rest := ColumnWidth(rows[1..], i, heading);
      assert forall j :: 0 <= j < |rows[1..]| ==> rows[1..][j] == rows[j + 1];
      if ByteLen(rows[0][i]) > rest then ByteLen(rows[0][i]) else rest
  }

  /** Every row has exactly one cell per heading. */
  predicate WellShaped(rows: seq<seq<string>>, headings: seq<string>) {
    forall j :: 0 <= j < |rows| ==> |rows[j]| == |headings|
  }

  /** The width of each column. */
  function Widths(rows: seq<seq<string>>, headings: seq<string>): (ws: seq<nat>)
    requires WellShaped(rows, headings)
    ensures |ws| == |headings|
    ensures forall i :: 0 <= i < |headings| ==> ws[i] >= ByteLen(headings[i])
    ensures forall i, j :: 0 <= i < |headings| && 0 <= j < |rows| ==> ws[i] >= ByteLen(rows[j][i])
  {
    seq(|headings|, i requires 0 <= i < |headings| => ColumnWidth(rows, i, headings[i]))
  }

  // ---------------------------------------------------------------------------
  // Rows

  /** `format!("{s:<w$}")`: left-aligned, padded with spaces to `w` characters. */
  function PadRight(s: string, w: nat): (r: string)
    ensures |r| == if |s| < w then w else |s|
    ensures r[..|s|] == s
    ensures forall i :: |s| <= i < |r| ==> r[i] == ' '
  {
    if |s| < w then s + seq(w - |s|, _ => ' ') else s
  }

  /** The cells of a row, each padded to its column's width. */
  function PadCells(cells: seq<string>, widths: seq<nat>): seq<string>
    requires |cells| == |widths|
  {
    seq(|cells|, i requires 0 <= i < |cells| => PadRight(cells[i], widths[i]))
  }

  /** `"| " + cells.join(" | ") + " |"`. */
  function Line(cells: seq<string>): string {
    "| " + Join(cells, " | ") + " |"
  }

  /** The separator cells: `-` repeated to each width. */
  function Dashes(widths: seq<nat>): seq<string>
  {
    seq(|widths|, i requires 0 <= i < |widths| => seq(widths[i], _ => '-'))
  }

  /** One line per row, each cell padded to its column's width. */
  function RowLines(rows: seq<seq<string>>, widths: seq<nat>): seq<string>
    requires forall j :: 0 <= j < |rows| ==> |rows[j]| == |widths|
  {
    seq(|rows|, j requires 0 <= j < |rows| => Line(PadCells(rows[j], widths)))
  }

  /** The table's lines: headings, separator, then one line per row in order. */
  function TableLines(rows: seq<seq<string>>, headings: seq<string>): seq<string>
    requires WellShaped(rows, headings)
  {
    var ws := Widths(rows, headings);
    [Line(PadCells(headings, ws)), Line(Dashes(ws))] + RowLines(rows, ws)
  }

  /** What `display_as_table` returns: the section heading, a blank line and
      the table's lines, without a trailing newline. */
  function TableText(rows: seq<seq<string>>, headings: seq<string>, heading: string): string
    requires WellShaped(rows, headings)
  {
    "### " + heading + "\n\n" + Join(TableLines(rows, headings), "\n")
  }

  /** Lines each followed by a newline, as `writeln!` appends them. */
  function Terminated(lines: seq<string>): string
    decreases |lines|
  {
    if lines == [] then "" else Terminated(lines[..|lines| - 1]) + lines[|lines| - 1] + "\n"
  }

  lemma {:induction false} TerminatedJoin(lines: seq<string>)
    requires lines != []
    ensures Terminated(lines) == Join(lines, "\n") + "\n"
    decreases |lines|
  {
    if |lines| > 1 {
      var init := lines[..|lines| - 1];
      TerminatedJoin(init);
      JoinAppend(init, [lines[|lines| - 1]], "\n");
      assert init + [lines[|lines| - 1]] == lines;
    }
  }

  /** Writing line `n` after the first `n` lines. */
  lemma AppendLine(prefix: string, lines: seq<string>, n: nat)
    requires n < |lines|
    ensures prefix + Terminated(lines[..n]) + lines[n] + "\n" == prefix + Terminated(lines[..n + 1])
  {
    assert lines[..n + 1][..n] == lines[..n];
    if n == 0 {
      assert lines[..0] == [];
    }
  }

  /** `display_as_table`: the heading, the heading row and the separator are
      written, then one line per row; the result is trimmed. */
  method DisplayAsTable(rows: seq<seq<string>>, headings: seq<string>, heading: string) returns (out: string)
    requires WellShaped(rows, headings)
    ensures out == TableText(rows, headings, heading)
  {
    var widths := Widths(rows, headings);
    ghost var lines := TableLines(rows, headings);
    var prefix := "### " + heading + "\n\n";
    var result := prefix;
    result := result + Line(PadCells(headings, widths)) + "\n";
    result := result + Line(Dashes(widths)) + "\n";
    AppendLine(prefix, lines, 0);
    AppendLine(prefix, lines, 1);
    for j := 0 to |rows|
      invariant result == prefix + Terminated(lines[..j + 2])
    {
      assert lines[2..][j] == lines[j + 2];
      result := result + Line(PadCells(rows[j], widths)) + "\n";
      AppendLine(prefix, lines, j + 2);
    }
    assert lines[..|rows| + 2] == lines;
    TrimTable(rows, headings, heading);
    out := Trim(result);
  }

  /** Trimming the written table removes exactly the final newline. */
  lemma TrimTable(rows: seq<seq<string>>, headings: seq<string>, heading: string)
    requires WellShaped(rows, headings)
    ensures Trim("### " + heading + "\n\n" + Terminated(TableLines(rows, headings))) == TableText(rows, headings, heading)
  {
    var lines := TableLines(rows, headings);
    TerminatedJoin(lines);
    TableJoinEndsInBar(rows, headings);
    TrimHeaded("### " + heading + "\n\n", Join(lines, "\n"));
  }

  /** A text that starts with `#` and ends in `|` loses only its final newline to `trim`. */
  lemma TrimHeaded(prefix: string, body: string)
    requires prefix != [] && prefix[0] == '#' && body != [] && body[|body| - 1] == '|'
    ensures Trim(prefix + (body + "\n")) == prefix + body
  {
    var t := prefix + body;
    assert prefix + (body + "\n") == t + "\n";
    assert t[0] == '#' && t[|t| - 1] == '|';
    TrimAfterNewline(t);
  }

  /** The joined lines of a table end in `|`. */
  lemma TableJoinEndsInBar(rows: seq<seq<string>>, headings: seq<string>)
    requires WellShaped(rows, headings)
    ensures var s := Join(TableLines(rows, headings), "\n"); s != [] && s[|s| - 1] == '|'
  {
    TableLinesEndInBar(rows, headings);
    LastLineEnd(TableLines(rows, headings));
  }

  /** Every line of a table ends in `|`. */
  lemma TableLinesEndInBar(rows: seq<seq<string>>, headings: seq<string>)
    requires WellShaped(rows, headings)
    ensures var lines := TableLines(rows, headings);
            forall k :: 0 <= k < |lines| ==> lines[k] != [] && lines[k][|lines[k]| - 1] == '|'
  {
    var lines := TableLines(rows, headings);
    forall k | 0 <= k < |lines| ensures lines[k] != [] && lines[k][|lines[k]| - 1] == '|' {
      if k >= 2 {
        assert lines[k] == lines[2..][k - 2];
        LineEndsInBar(PadCells(rows[k - 2], Widths(rows, headings)));
      } else if k == 0 {
        LineEndsInBar(PadCells(headings, Widths(rows, headings)));
      } else {
        LineEndsInBar(Dashes(Widths(rows, headings)));
      }
    }
  }

  lemma LineEndsInBar(cells: seq<string>)
    ensures var l := Line(cells); l != [] && l[|l| - 1] == '|'
  {
  }

  /** A join of lines that all end in `|` ends in `|`. */
  lemma LastLineEnd(lines: seq<string>)
    requires lines != [] && forall k :: 0 <= k < |lines| ==> lines[k] != [] && lines[k][|lines[k]| - 1] == '|'
    ensures var s := Join(lines, "\n"); s != [] && s[|s| - 1] == '|'
    decreases |lines|
  {
    if |lines| > 1 {
      LastLineEnd(lines[1..]);
    }
  }

  // ---------------------------------------------------------------------------
  // Properties of the table

  /** Every padded cell fills its column exactly: widths count bytes, which are
      never fewer than characters, so no cell is wider than its column. */
  lemma PaddedToWidth(rows: seq<seq<string>>, headings: seq<string>)
    requires WellShaped(rows, headings)
    ensures var ws := Widths(rows, headings);
            && (forall i :: 0 <= i < |headings| ==> |PadRight(headings[i], ws[i])| == ws[i])
            && (forall i, j :: 0 <= i < |headings| && 0 <= j < |rows| ==> |PadRight(rows[j][i], ws[i])| == ws[i])
  {
  }

  /** For ASCII text, a column is exactly as wide as its widest cell or heading. */
  lemma AsciiWidthIsTight(rows: seq<seq<string>>, headings: seq<string>, i: nat)
    requires WellShaped(rows, headings) && i < |headings|
    requires IsAscii(headings[i]) && forall j :: 0 <= j < |rows| ==> IsAscii(rows[j][i])
    ensures var w := Widths(rows, headings)[i];
            && w >= |headings[i]| && (forall j :: 0 <= j < |rows| ==> w >= |rows[j][i]|)
            && (w == |headings[i]| || exists j :: 0 <= j < |rows| && w == |rows[j][i]|)
  {
    AsciiByteLen(headings[i]);
    forall j | 0 <= j < |rows| ensures ByteLen(rows[j][i]) == |rows[j][i]| {
      AsciiByteLen(rows[j][i]);
    }
  }

  /** Joins of equally long parts are equally long. */
  lemma {:induction false} JoinSameLength(a: seq<string>, b: seq<string>, sep: string)
    requires |a| == |b| && forall i :: 0 <= i < |a| ==> |a[i]| == |b[i]|
    ensures |Join(a, sep)| == |Join(b, sep)|
    decreases |a|
  {
    if |a| > 1 {
      JoinSameLength(a[1..], b[1..], sep);
    }
  }

  /** All lines of the table have the same number of characters. */
  lemma LinesSameLength(rows: seq<seq<string>>, headings: seq<string>)
    requires WellShaped(rows, headings)
    ensures var lines := TableLines(rows, headings);
            forall k :: 0 <= k < |lines| ==> |lines[k]| == |lines[0]|
  {
    var ws := Widths(rows, headings);
    var lines := TableLines(rows, headings);
    var hs := PadCells(headings, ws);
    JoinSameLength(Dashes(ws), hs, " | ");
    forall k | 0 <= k < |lines| ensures |lines[k]| == |lines[0]| {
      if k >= 2 {
        assert lines[k] == lines[2..][k - 2] == Line(PadCells(rows[k - 2], ws));
        JoinSameLength(PadCells(rows[k - 2], ws), hs, " | ");
      }
    }
  }

  /** No line of the table contains a newline when no cell or heading does. */
  lemma TableLinesNoNewline(rows: seq<seq<string>>, headings: seq<string>)
    requires WellShaped(rows, headings)
    requires forall i :: 0 <= i < |headings| ==> NoNewline(headings[i])
    requires forall j, i :: 0 <= j < |rows| && 0 <= i < |rows[j]| ==> NoNewline(rows[j][i])
    ensures var lines := TableLines(rows, headings); forall k :: 0 <= k < |lines| ==> NoNewline(lines[k])
  {
    var ws := Widths(rows, headings);
    var lines := TableLines(rows, headings);
    forall k | 0 <= k < |lines| ensures NoNewline(lines[k]) {
      if k == 0 {
        PadCellsNoNewline(headings, ws);
        LineNoNewline(PadCells(headings, ws));
      } else if k == 1 {
        LineNoNewline(Dashes(ws));
      } else {
        assert lines[k] == lines[2..][k - 2];
        PadCellsNoNewline(rows[k - 2], ws);
        LineNoNewline(PadCells(rows[k - 2], ws));
      }
    }
  }

  lemma PadCellsNoNewline(cells: seq<string>, widths: seq<nat>)
    requires |cells| == |widths| && forall i :: 0 <= i < |cells| ==> NoNewline(cells[i])
    ensures forall i :: 0 <= i < |cells| ==> NoNewline(PadCells(cells, widths)[i])
  {
    forall i | 0 <= i < |cells| ensures NoNewline(PadRight(cells[i], widths[i])) {
      var c := cells[i];
      assert PadRight(c, widths[i]) == c || PadRight(c, widths[i]) == c + seq(widths[i] - |c|, _ => ' ');
    }
  }

  lemma LineNoNewline(cells: seq<string>)
    requires forall i :: 0 <= i < |cells| ==> NoNewline(cells[i])
    ensures NoNewline(Line(cells))
  {
    NoNewlineJoin(cells, " | ");
  }

  /** The table read line by line: the heading, a blank line, the heading
      row, the separator, and one line per row in input order. */
  lemma TableTextLines(rows: seq<seq<string>>, headings: seq<string>, heading: string)
    requires WellShaped(rows, headings)
    requires NoNewline(heading)
    requires forall i :: 0 <= i < |headings| ==> NoNewline(headings[i])
    requires forall j, i :: 0 <= j < |rows| && 0 <= i < |rows[j]| ==> NoNewline(rows[j][i])
    ensures Split(TableText(rows, headings, heading), '\n') == ["### " + heading, ""] + TableLines(rows, headings)
  {
    var ws := Widths(rows, headings);
    var lines := TableLines(rows, headings);
    var all := ["### " + heading, ""] + lines;
    TableLinesNoNewline(rows, headings);
    JoinAppend(["### " + heading, ""], lines, "\n");
    assert Join(["### " + heading, ""], "\n") == "### " + heading + "\n" + "";
    assert Join(all, "\n") == TableText(rows, headings, heading);
    assert NoNewline("### " + heading);
    forall k | 0 <= k < |all| ensures NoNewline(all[k]) {
      if k >= 2 { assert all[k] == lines[k - 2]; }
    }
    SplitJoin(all, '\n');
  }
}
