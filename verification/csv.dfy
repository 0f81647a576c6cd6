/** The CSV files the client exports (`Util.exportToCSV`) and the server turns
    into PDF tables (`PDFReport.readCsv` and the rules of
    `generatePdfReport`). Cells arrive already rendered as text (dates
    formatted, values passed through `toString`); a null cell is `None`. The
    file is its text, with `println` ending every line with "\n". */
module Csv {
  import opened Wrappers
  import opened Text
  import opened Counting

  // ---------------------------------------------------------------------
  // Writing
  // ---------------------------------------------------------------------

  /** `replace("\"", "\"\"")`: every double quote doubled, nothing else
      touched. */
  function DoubleQuotes(s: string): (r: string)
    ensures CountChar(r, '"') == 2 * CountChar(s, '"')
    ensures forall c :: c in r <==> c in s
    ensures '"' !in s ==> r == s
  {
    if s == [] then []
    else
      var head := if s[0] == '"' then "\"\"" else [s[0]];
      var rest := DoubleQuotes(s[1..]);
      CountCharAppend(head, rest, '"');
      assert forall c :: c in s <==> c == s[0] || c in s[1..];
      assert s == [s[0]] + s[1..];
      head + rest
  }

  function CellText(cell: Option<string>): string {
    cell.GetOr("")
  }

  predicate NeedsQuoting(s: string) {
    ',' in s || '"' in s
  }

  /** One exported cell: null becomes "", quotes are doubled, and the result
      is wrapped in quotes exactly when it holds a comma or a quote. */
  function EscapeCell(cell: Option<string>): (e: string)
    ensures NeedsQuoting(CellText(cell)) ==> e == "\"" + DoubleQuotes(CellText(cell)) + "\""
    ensures !NeedsQuoting(CellText(cell)) ==> e == CellText(cell)
    ensures WellQuoted(e)
  {
    var t := DoubleQuotes(CellText(cell));
    EscapedIsWellQuoted(CellText(cell));
    if ',' in t || '"' in t then "\"" + t + "\"" else t
  }

  function EscapeAll(cells: seq<Option<string>>): (es: seq<string>)
    ensures |es| == |cells| && forall i :: 0 <= i < |cells| ==> es[i] == EscapeCell(cells[i])
  {
    seq(|cells|, i requires 0 <= i < |cells| => EscapeCell(cells[i]))
  }

  /** A data line: the escaped cells, a comma between neighbours. */
  function DataLine(cells: seq<Option<string>>): string {
    JoinComma(EscapeAll(cells))
  }

  /** The header line: the column titles as they are, unescaped. */
  function HeaderLine(titles: seq<string>): string {
    JoinComma(titles)
  }

  /** The exported lines: the header, then one line per table row in order. */
  function ExportLines(titles: seq<string>, rows: seq<seq<Option<string>>>): (lines: seq<string>)
    ensures |lines| == |rows| + 1 && lines[0] == HeaderLine(titles)
    ensures forall k :: 0 <= k < |rows| ==> lines[k + 1] == DataLine(rows[k])
  {
    [HeaderLine(titles)] + seq(|rows|, k requires 0 <= k < |rows| => DataLine(rows[k]))
  }

  /** The file text: every line followed by "\n". */
  function WriteLines(lines: seq<string>): string {
    if lines == [] then "" else lines[0] + "\n" + WriteLines(lines[1..])
  }

  // ---------------------------------------------------------------------
  // Reading
  // ---------------------------------------------------------------------

  predicate IsLineBreak(c: char) { c == '\n' || c == '\r' }

  predicate NoLineBreak(s: string) {
    forall j :: 0 <= j < |s| ==> !IsLineBreak(s[j])
  }

  /** Where the first line of `text` ends. */
  function LineEnd(text: string): (i: nat)
    ensures i <= |text|
    ensures NoLineBreak(text[..i])
    ensures i < |text| ==> IsLineBreak(text[i])
  {
    if text == [] || IsLineBreak(text[0]) then 0
    else
      var k := LineEnd(text[1..]);
      assert text[..k + 1] == [text[0]] + text[1..][..k];
      k + 1
  }

  /** `readLine` until the end: a line ends at "\n", "\r" or "\r\n", and a
      last line without a terminator still counts. */
  function ReadLines(text: string): (lines: seq<string>)
    ensures forall k :: 0 <= k < |lines| ==> NoLineBreak(lines[k])
    ensures |lines| <= |text|
    decreases |text|
  {
    if text == [] then []
    else
      var i := LineEnd(text);
      var next :=
        if i == |text| then i
        else if text[i] == '\r' && i + 1 < |text| && text[i + 1] == '\n' then i + 2
        else i + 1;
      [text[..i]] + ReadLines(text[next..])
  }

  /** A comma separates two fields exactly when an even number of quotes
      follow it on the line. */
  predicate IsSeparator(line: string, i: int)
    requires 0 <= i < |line|
  {
    line[i] == ',' && CountChar(line[i + 1..], '"') % 2 == 0
  }

  /** `line.split(",(?=([^\"]*\"[^\"]*\")*[^\"]*$)", -1)`: the text between
      separating commas, empty fields (trailing ones included) kept. */
  function SplitFields(line: string): (fs: seq<string>)
    ensures |fs| >= 1
    decreases |line|
  {
    if line == [] then [""]
    else
      var rest := SplitFields(line[1..]);
      if IsSeparator(line, 0) then [""] + rest
      else [[line[0]] + rest[0]] + rest[1..]
  }

  /** The characters besides "\n" and "\r" that Java's regular expressions
      treat as line terminators: U+0085, U+2028 and U+2029. `readLine` does not
      split at them, so one can end a field. */
  predicate IsOtherTerminator(c: char) {
    c == '\U{85}' || c == '\U{2028}' || c == '\U{2029}'
  }

  /** `replaceAll("^\"|\"$", "")`: one leading and one trailing quote go,
      anything inside stays as it is. Without MULTILINE, `$` matches at the
      end of the field and also just before a line terminator that ends it,
      so a quote followed by a final U+0085, U+2028 or U+2029 goes too. */
  function StripQuotes(f: string): (r: string)
    ensures var lead := if |f| > 0 && f[0] == '"' then 1 else 0;
      var g := f[lead..];
      var atEnd := |g| > 0 && g[|g| - 1] == '"';
      var beforeTerminator := |g| >= 2 && g[|g| - 2] == '"' && IsOtherTerminator(g[|g| - 1]);
      && (atEnd ==> r == g[..|g| - 1])
      && (!atEnd && beforeTerminator ==> r == g[..|g| - 2] + [g[|g| - 1]])
      && (!atEnd && !beforeTerminator ==> r == g)
      && |f| - lead - 1 <= |r| <= |f| - lead
  {
    var g := if |f| > 0 && f[0] == '"' then f[1..] else f;
    if |g| > 0 && g[|g| - 1] == '"' then g[..|g| - 1]
    else if |g| >= 2 && g[|g| - 2] == '"' && IsOtherTerminator(g[|g| - 1]) then g[..|g| - 2] + [g[|g| - 1]]
    else g
  }

  /** A quote just before a final U+2028 is stripped, the terminator kept. */
  lemma StripBeforeTerminator()
    ensures StripQuotes("a\"\U{2028}") == "a\U{2028}"
  {
  }

  function StripAll(fs: seq<string>): (rs: seq<string>)
    ensures |rs| == |fs| && forall i :: 0 <= i < |fs| ==> rs[i] == StripQuotes(fs[i])
  {
    seq(|fs|, i requires 0 <= i < |fs| => StripQuotes(fs[i]))
  }

  /** One line as `readCsv` parses it. */
  function ParseLine(line: string): (fields: seq<string>)
    ensures |fields| >= 1
  {
    StripAll(SplitFields(line))
  }

  /** `readCsv`: every line that is not blank after trimming becomes a row. */
  function ReadRows(lines: seq<string>, parse: string -> seq<string>): (rows: seq<seq<string>>)
    ensures |rows| <= |lines|
    ensures rows == [] <==> forall i :: 0 <= i < |lines| ==> IsBlank(lines[i])
  {
    if lines == [] then []
    else
      var rest := ReadRows(lines[1..], parse);
      assert forall i :: 1 <= i < |lines| ==> lines[i] == lines[1..][i - 1];
      (if IsBlank(lines[0]) then [] else [parse(lines[0])]) + rest
  }

  function ParseLineFn(): string -> seq<string> { line => ParseLine(line) }

  /** `readCsv` on a readable file's text, as written. */
  function ReadCsv(text: string): (rows: seq<seq<string>>)
    ensures |rows| <= |ReadLines(text)|
    ensures rows == [] <==> forall i :: 0 <= i < |ReadLines(text)| ==> IsBlank(ReadLines(text)[i])
  {
    ReadRows(ReadLines(text), ParseLineFn())
  }

  // ---------------------------------------------------------------------
  // The reader with quotes un-doubled
  // ---------------------------------------------------------------------

  /** The inverse of `DoubleQuotes`: every `""` becomes `"`. */
  function UndoubleQuotes(s: string): string
    decreases |s|
  {
    if s == [] then []
    else if |s| >= 2 && s[0] == '"' && s[1] == '"' then "\"" + UndoubleQuotes(s[2..])
    else [s[0]] + UndoubleQuotes(s[1..])
  }

  /** A field's value: a wrapped field is unwrapped and its quotes
      un-doubled; any other field is taken as it is. */
  function Unescape(f: string): string {
    if |f| >= 2 && f[0] == '"' && f[|f| - 1] == '"' then UndoubleQuotes(f[1..|f| - 1]) else f
  }

  function UnescapeAll(fs: seq<string>): (rs: seq<string>)
    ensures |rs| == |fs| && forall i :: 0 <= i < |fs| ==> rs[i] == Unescape(fs[i])
  {
    seq(|fs|, i requires 0 <= i < |fs| => Unescape(fs[i]))
  }

  function ParseLineCorrected(line: string): (fields: seq<string>)
    ensures |fields| == |SplitFields(line)|
  {
    UnescapeAll(SplitFields(line))
  }

  function ParseLineCorrectedFn(): string -> seq<string> { line => ParseLineCorrected(line) }

  function ReadCsvCorrected(text: string): seq<seq<string>> {
    ReadRows(ReadLines(text), ParseLineCorrectedFn())
  }

  // ---------------------------------------------------------------------
  // Splitting inverts joining
  // ---------------------------------------------------------------------

  /** An escaped cell's shape: an even number of quotes, and an odd number
      after every comma inside it, so that none of its commas separates. */
  predicate WellQuoted(e: string) {
    CountChar(e, '"') % 2 == 0
    && forall j :: 0 <= j < |e| && e[j] == ',' ==> CountChar(e[j + 1..], '"') % 2 == 1
  }

  /** After a comma of a doubled text, an even number of quotes follow. */
  lemma {:induction false} DoubledCommaSuffix(s: string, j: int)
    requires 0 <= j < |DoubleQuotes(s)| && DoubleQuotes(s)[j] == ','
    ensures CountChar(DoubleQuotes(s)[j + 1..], '"') % 2 == 0
    decreases |s|
  {
    var d := DoubleQuotes(s);
    var head := if s[0] == '"' then "\"\"" else [s[0]];
    var rest := DoubleQuotes(s[1..]);
    DoubleQuotesCons(s);
    if j < |head| {
      assert d[j + 1..] == rest;
      DoubledEven(s[1..]);
    } else {
      var k := j - |head|;
      assert d[j + 1..] == rest[k + 1..];
      assert rest[k] == ',';
      DoubledCommaSuffix(s[1..], k);
    }
  }

  lemma DoubleQuotesCons(s: string)
    requires s != []
    ensures DoubleQuotes(s) == (if s[0] == '"' then "\"\"" else [s[0]]) + DoubleQuotes(s[1..])
  {
  }

  lemma DoubledEven(s: string)
    ensures CountChar(DoubleQuotes(s), '"') % 2 == 0
  {
    var n := CountChar(s, '"');
    assert CountChar(DoubleQuotes(s), '"') == n + n;
    EvenSum(n);
  }

  lemma EvenSum(n: nat)
    ensures (n + n) % 2 == 0
  {
  }

  lemma EscapedIsWellQuoted(s: string)
    ensures WellQuoted(if NeedsQuoting(s) then "\"" + DoubleQuotes(s) + "\"" else s)
  {
    if NeedsQuoting(s) {
      var d := DoubleQuotes(s);
      var e := "\"" + d + "\"";
      WrappedCount(d);
      forall j | 0 <= j < |e| && e[j] == ','
        ensures CountChar(e[j + 1..], '"') % 2 == 1
      {
        WrappedComma(s, d, e, j);
      }
    } else {
      assert CountChar(s, '"') == 0;
    }
  }

  lemma WrappedComma(s: string, d: string, e: string, j: int)
    requires d == DoubleQuotes(s) && e == "\"" + d + "\""
    requires 0 <= j < |e| && e[j] == ','
    ensures CountChar(e[j + 1..], '"') % 2 == 1
  {
    WrappedIndex(d, e, j);
    var i := j - 1;
    DoubledCommaSuffix(s, i);
    var t := d[i + 1..];
    assert CountChar(t, '"') % 2 == 0;
    WrappedSuffix(d, e, j);
    assert e[j + 1..] == t + "\"";
    CountCharAppend(t, "\"", '"');
    QuoteCount();
    var n := CountChar(t, '"');
    assert CountChar(e[j + 1..], '"') == n + 1;
    SumParity(1, n);
  }

  lemma QuoteCount()
    ensures CountChar("\"", '"') == 1
  {
  }

  lemma WrappedIndex(d: string, e: string, j: int)
    requires e == "\"" + d + "\""
    requires 0 <= j < |e| && e[j] == ','
    ensures 1 <= j <= |d| && d[j - 1] == ','
  {
    assert e[0] == '"' && e[|e| - 1] == '"';
  }

  lemma WrappedSuffix(d: string, e: string, j: int)
    requires e == "\"" + d + "\""
    requires 1 <= j <= |d|
    ensures e[j + 1..] == d[j..] + "\""
  {
  }

  /** Splitting text that starts with a field free of separators puts that
      field in front of the first field of the remainder. */
  lemma {:induction false} SplitAfterPlainPrefix(e: string, rest: string)
    requires forall j :: 0 <= j < |e| && e[j] == ',' ==> CountChar(e[j + 1..] + rest, '"') % 2 == 1
    ensures SplitFields(e + rest) == [e + SplitFields(rest)[0]] + SplitFields(rest)[1..]
    decreases |e|
  {
    var fs := SplitFields(rest);
    if e == [] {
      assert e + rest == rest;
      assert e + fs[0] == fs[0];
      assert [fs[0]] + fs[1..] == fs;
    } else {
      var t := e + rest;
      assert t[1..] == e[1..] + rest;
      forall j | 0 <= j < |e[1..]| && e[1..][j] == ','
        ensures CountChar(e[1..][j + 1..] + rest, '"') % 2 == 1
      {
        assert e[1..][j + 1..] == e[j + 2..];
      }
      SplitAfterPlainPrefix(e[1..], rest);
      assert t[0 + 1..] == e[0 + 1..] + rest;
      assert !IsSeparator(t, 0);
      assert [e[0]] + (e[1..] + SplitFields(rest)[0]) == e + SplitFields(rest)[0];
    }
  }

  lemma {:induction false} SplitJoined(es: seq<string>)
    requires |es| >= 1
    requires forall i :: 0 <= i < |es| ==> WellQuoted(es[i])
    ensures SplitFields(JoinComma(es)) == es
    ensures CountChar(JoinComma(es), '"') % 2 == 0
    decreases |es|
  {
    if |es| == 1 {
      SplitOne(es[0]);
    } else {
      SplitJoined(es[1..]);
      SplitCons(es[0], es[1..]);
      assert es == [es[0]] + es[1..];
    }
  }

  lemma SplitOne(e: string)
    requires WellQuoted(e)
    ensures SplitFields(e) == [e]
  {
    forall j | 0 <= j < |e| && e[j] == ',' ensures CountChar(e[j + 1..] + "", '"') % 2 == 1 {
      assert e[j + 1..] + "" == e[j + 1..];
    }
    SplitAfterPlainPrefix(e, "");
    assert e + "" == e;
  }

  lemma SplitCons(e: string, tail: seq<string>)
    requires WellQuoted(e) && |tail| >= 1
    requires SplitFields(JoinComma(tail)) == tail && CountChar(JoinComma(tail), '"') % 2 == 0
    ensures SplitFields(JoinComma([e] + tail)) == [e] + tail
    ensures CountChar(JoinComma([e] + tail), '"') % 2 == 0
  {
    var rest := JoinComma(tail);
    var after := "," + rest;
    assert CountChar(after, '"') == CountChar(rest, '"') by {
      assert after[1..] == rest;
    }
    JoinCommaCons(e, tail);
    Assoc(e, ",", rest);
    assert JoinComma([e] + tail) == e + after;
    forall j | 0 <= j < |e| && e[j] == ','
      ensures CountChar(e[j + 1..] + after, '"') % 2 == 1
    {
      AppendEven(e[j + 1..], after);
    }
    SplitAfterPlainPrefix(e, after);
    SplitSeparator(rest);
    assert e + "" == e;
    AppendEven(e, after);
  }

  /** Appending text with an even number of quotes keeps the parity. */
  lemma AppendEven(a: string, b: string)
    requires CountChar(b, '"') % 2 == 0
    ensures CountChar(a + b, '"') % 2 == CountChar(a, '"') % 2
  {
    CountCharAppend(a, b, '"');
    SumParity(CountChar(a, '"'), CountChar(b, '"'));
  }

  /** Adding an even number keeps the parity. */
  lemma SumParity(a: nat, b: nat)
    requires b % 2 == 0
    ensures (a + b) % 2 == a % 2
  {
  }

  lemma JoinCommaCons(x: string, ys: seq<string>)
    requires |ys| >= 1
    ensures JoinComma([x] + ys) == x + "," + JoinComma(ys)
  {
    assert ([x] + ys)[1..] == ys;
  }

  lemma Assoc(a: string, b: string, c: string)
    ensures a + b + c == a + (b + c)
  {
  }

  lemma SplitSeparator(rest: string)
    requires CountChar(rest, '"') % 2 == 0
    ensures SplitFields("," + rest) == [""] + SplitFields(rest)
  {
    assert ("," + rest)[1..] == rest;
    assert IsSeparator("," + rest, 0);
  }

  /** Splitting only ever cuts at commas: joining the fields with commas
      gives the line back. */
  lemma {:induction false} SplitRejoin(line: string)
    ensures JoinComma(SplitFields(line)) == line
    decreases |line|
  {
    if line != [] {
      var rest := SplitFields(line[1..]);
      SplitRejoin(line[1..]);
      if IsSeparator(line, 0) {
        assert ([""] + rest)[1..] == rest;
        assert line == [','] + line[1..];
      } else {
        JoinCommaHead(line[0], rest);
        assert line == [line[0]] + line[1..];
      }
    }
  }

  lemma JoinCommaHead(c: char, ys: seq<string>)
    requires |ys| >= 1
    ensures JoinComma([[c] + ys[0]] + ys[1..]) == [c] + JoinComma(ys)
  {
    var x := [c] + ys[0];
    var t := ys[1..];
    var zs := [x] + t;
    if |ys| == 1 {
      assert zs == [x];
    } else {
      assert zs[1..] == t && zs[0] == x && |zs| >= 2;
      assert JoinComma(zs) == x + "," + JoinComma(t);
      assert JoinComma(ys) == ys[0] + "," + JoinComma(t);
      CommaAssoc(c, ys[0], JoinComma(t));
    }
  }

  lemma CommaAssoc(c: char, y: string, z: string)
    ensures ([c] + y) + "," + z == [c] + (y + "," + z)
  {
  }

  /** Wrapping adds two quotes. */
  lemma WrappedCount(d: string)
    ensures CountChar("\"" + d + "\"", '"') == CountChar(d, '"') + 2
  {
    CountCharAppend("\"", d, '"');
    CountCharAppend("\"" + d, "\"", '"');
  }

  // ---------------------------------------------------------------------
  // Round trips
  // ---------------------------------------------------------------------

  function Texts(cells: seq<Option<string>>): (ts: seq<string>)
    ensures |ts| == |cells| && forall i :: 0 <= i < |cells| ==> ts[i] == CellText(cells[i])
  {
    seq(|cells|, i requires 0 <= i < |cells| => CellText(cells[i]))
  }

  /** As written: a cell without quotes comes back as it was exported. */
  lemma StripEscaped(cell: Option<string>)
    requires '"' !in CellText(cell)
    ensures StripQuotes(EscapeCell(cell)) == CellText(cell)
  {
    var s := CellText(cell);
    if NeedsQuoting(s) {
      var e := "\"" + s + "\"";
      assert e[1..] == s + "\"";
      assert (s + "\"")[..|s|] == s;
    } else if |s| > 0 {
      assert s[0] in s && s[|s| - 1] in s;
    }
  }

  /** As written: a line whose cells hold no quote splits back into its
      cells. */
  lemma DataLineRoundTrip(cells: seq<Option<string>>)
    requires |cells| >= 1
    requires forall i :: 0 <= i < |cells| ==> '"' !in CellText(cells[i])
    ensures ParseLine(DataLine(cells)) == Texts(cells)
  {
    SplitJoined(EscapeAll(cells));
    forall i | 0 <= i < |cells| ensures StripQuotes(EscapeAll(cells)[i]) == CellText(cells[i]) {
      StripEscaped(cells[i]);
    }
  }

  /** As written: a cell holding a quote does not come back; `a"b` is read as
      `a""b`. */
  lemma QuotedCellComesBackDoubled()
    ensures EscapeCell(Some("a\"b")) == "\"a\"\"b\""
    ensures ParseLine(DataLine([Some("a\"b")])) == ["a\"\"b"]
  {
    var cell := Some("a\"b");
    EscapeExample();
    DataLineRoundTripOne(cell);
    StripExample();
  }

  lemma EscapeExample()
    ensures EscapeCell(Some("a\"b")) == "\"a\"\"b\""
  {
    var s := "a\"b";
    assert CellText(Some(s)) == s;
    DoubleQuotesExample();
    assert NeedsQuoting(s) by { assert s[1] == '"'; }
    assert EscapeCell(Some(s)) == "\"" + DoubleQuotes(s) + "\"";
  }

  lemma StripExample()
    ensures StripQuotes("\"a\"\"b\"") == "a\"\"b"
  {
    var e := "\"a\"\"b\"";
    assert e[1..] == "a\"\"b\"";
    assert "a\"\"b\""[..4] == "a\"\"b";
  }

  lemma DoubleQuotesExample()
    ensures DoubleQuotes("a\"b") == "a\"\"b"
  {
    assert DoubleQuotes("b") == "b" by {
      assert "b"[1..] == [];
    }
    assert DoubleQuotes("\"b") == "\"\"b" by {
      assert "\"b"[1..] == "b";
    }
    assert "a\"b"[1..] == "\"b";
  }

  /** A one-cell line is the escaped cell, and it splits into itself. */
  lemma DataLineRoundTripOne(cell: Option<string>)
    ensures ParseLine(DataLine([cell])) == [StripQuotes(EscapeCell(cell))]
  {
    assert EscapeAll([cell]) == [EscapeCell(cell)];
    SplitJoined([EscapeCell(cell)]);
  }

  lemma {:induction false} UndoubleDouble(s: string)
    ensures UndoubleQuotes(DoubleQuotes(s)) == s
    decreases |s|
  {
    if s != [] {
      UndoubleDouble(s[1..]);
      var rest := DoubleQuotes(s[1..]);
      if s[0] == '"' {
        assert DoubleQuotes(s) == "\"\"" + rest;
        assert ("\"\"" + rest)[2..] == rest;
      } else {
        assert DoubleQuotes(s) == [s[0]] + rest;
        assert ([s[0]] + rest)[1..] == rest;
      }
      assert s == [s[0]] + s[1..];
    }
  }

  /** With quotes un-doubled, every cell comes back as it was exported. */
  lemma UnescapeEscaped(cell: Option<string>)
    ensures Unescape(EscapeCell(cell)) == CellText(cell)
  {
    var s := CellText(cell);
    if NeedsQuoting(s) {
      var d := DoubleQuotes(s);
      var e := "\"" + d + "\"";
      assert e[1..|e| - 1] == d;
      UndoubleDouble(s);
    } else if |s| >= 2 {
      assert s[0] in s;
    }
  }

  lemma DataLineRoundTripCorrected(cells: seq<Option<string>>)
    requires |cells| >= 1
    ensures ParseLineCorrected(DataLine(cells)) == Texts(cells)
  {
    SplitJoined(EscapeAll(cells));
    forall i | 0 <= i < |cells| ensures Unescape(EscapeAll(cells)[i]) == CellText(cells[i]) {
      UnescapeEscaped(cells[i]);
    }
  }

  /** A header whose titles hold no comma or quote reads back as the titles;
      a title with a comma would split, since the header is not escaped. */
  lemma HeaderRoundTrip(titles: seq<string>)
    requires |titles| >= 1
    requires forall i :: 0 <= i < |titles| ==> !NeedsQuoting(titles[i])
    ensures ParseLine(HeaderLine(titles)) == titles
    ensures ParseLineCorrected(HeaderLine(titles)) == titles
  {
    forall i | 0 <= i < |titles| ensures WellQuoted(titles[i]) && CountChar(titles[i], '"') == 0 {
    }
    SplitJoined(titles);
    forall i | 0 <= i < |titles|
      ensures StripQuotes(titles[i]) == titles[i] && Unescape(titles[i]) == titles[i]
    {
      var t := titles[i];
      if |t| > 0 {
        assert t[0] in t && t[|t| - 1] in t;
      }
    }
  }

  lemma HeaderCommaSplits()
    ensures ParseLine(HeaderLine(["a,b"])) == ["a", "b"]
  {
    var l := "a,b";
    assert HeaderLine(["a,b"]) == l;
    assert SplitFields("b") == ["b"] by {
      assert "b"[1..] == "";
      assert SplitFields("") == [""];
      assert !IsSeparator("b", 0);
      assert ['b'] + "" == "b";
    }
    assert SplitFields(",b") == ["", "b"] by {
      assert CountChar("b", '"') == 0;
      SplitSeparator("b");
    }
    assert SplitFields(l) == ["a", "b"] by {
      assert l[1..] == ",b";
      assert !IsSeparator(l, 0);
      assert ['a'] + "" == "a";
    }
  }

  /** The file's lines come back from its text when no line holds a line
      break. */
  lemma {:induction false} LinesRoundTrip(lines: seq<string>)
    requires forall k :: 0 <= k < |lines| ==> NoLineBreak(lines[k])
    ensures ReadLines(WriteLines(lines)) == lines
    decreases |lines|
  {
    if lines != [] {
      var l := lines[0];
      var rest := WriteLines(lines[1..]);
      var text := l + "\n" + rest;
      assert WriteLines(lines) == text;
      LineEndAt(l, rest);
      assert text[..|l|] == l;
      assert text[|l| + 1..] == rest;
      LinesRoundTrip(lines[1..]);
      assert lines == [l] + lines[1..];
    }
  }

  lemma {:induction false} LineEndAt(l: string, rest: string)
    requires NoLineBreak(l)
    ensures LineEnd(l + "\n" + rest) == |l|
    decreases |l|
  {
    if l != [] {
      assert (l + "\n" + rest)[1..] == l[1..] + "\n" + rest;
      LineEndAt(l[1..], rest);
    }
  }

  lemma {:induction false} NoBreakInJoin(es: seq<string>)
    requires forall i :: 0 <= i < |es| ==> NoLineBreak(es[i])
    ensures NoLineBreak(JoinComma(es))
    decreases |es|
  {
    if |es| >= 2 {
      NoBreakInJoin(es[1..]);
      var r := JoinComma(es[1..]);
      assert JoinComma(es) == es[0] + "," + r;
      assert forall j :: |es[0]| + 1 <= j < |es[0] + "," + r| ==> (es[0] + "," + r)[j] == r[j - |es[0]| - 1];
    }
  }

  lemma NoBreakInEscape(cell: Option<string>)
    requires NoLineBreak(CellText(cell))
    ensures NoLineBreak(EscapeCell(cell))
  {
    var s := CellText(cell);
    var d := DoubleQuotes(s);
    forall j | 0 <= j < |d| ensures !IsLineBreak(d[j]) {
      assert d[j] in s;
    }
  }

  function TextRows(rows: seq<seq<Option<string>>>): (ts: seq<seq<string>>)
    ensures |ts| == |rows| && forall k :: 0 <= k < |rows| ==> ts[k] == Texts(rows[k])
  {
    seq(|rows|, k requires 0 <= k < |rows| => Texts(rows[k]))
  }

  /** With quotes un-doubled, reading an exported file gives back its titles
      and cells, as long as no cell holds a line break, no title holds a
      comma or quote, and no line is blank. */
  lemma ExportRoundTripCorrected(titles: seq<string>, rows: seq<seq<Option<string>>>)
    requires |titles| >= 1 && forall i :: 0 <= i < |titles| ==> !NeedsQuoting(titles[i]) && NoLineBreak(titles[i])
    requires forall k :: 0 <= k < |rows| ==> |rows[k]| >= 1
    requires forall k, i :: 0 <= k < |rows| && 0 <= i < |rows[k]| ==> NoLineBreak(CellText(rows[k][i]))
    requires forall k :: 0 <= k < |rows| + 1 ==> !IsBlank(ExportLines(titles, rows)[k])
    ensures ReadCsvCorrected(WriteLines(ExportLines(titles, rows))) == [titles] + TextRows(rows)
  {
    var lines := ExportLines(titles, rows);
    ExportLinesUnbroken(titles, rows);
    LinesRoundTrip(lines);
    assert ReadCsvCorrected(WriteLines(lines)) == ReadRows(lines, ParseLineCorrectedFn());
    ExportLinesParse(titles, rows);
    ReadParsedRows(lines, [titles] + TextRows(rows));
  }

  /** Lines with no blank among them, each parsing to the expected row, read
      as the expected rows. */
  lemma ReadParsedRows(lines: seq<string>, expected: seq<seq<string>>)
    requires |lines| == |expected|
    requires forall k :: 0 <= k < |lines| ==> !IsBlank(lines[k])
    requires forall k :: 0 <= k < |lines| ==> ParseLineCorrected(lines[k]) == expected[k]
    ensures ReadRows(lines, ParseLineCorrectedFn()) == expected
  {
    ReadNonBlank(lines, ParseLineCorrectedFn());
  }

  lemma ExportLinesUnbroken(titles: seq<string>, rows: seq<seq<Option<string>>>)
    requires forall i :: 0 <= i < |titles| ==> NoLineBreak(titles[i])
    requires forall k, i :: 0 <= k < |rows| && 0 <= i < |rows[k]| ==> NoLineBreak(CellText(rows[k][i]))
    ensures forall k :: 0 <= k < |rows| + 1 ==> NoLineBreak(ExportLines(titles, rows)[k])
  {
    var lines := ExportLines(titles, rows);
    NoBreakInJoin(titles);
    forall k | 1 <= k < |lines| ensures NoLineBreak(lines[k]) {
      var row := rows[k - 1];
      forall i | 0 <= i < |row| ensures NoLineBreak(EscapeAll(row)[i]) {
        NoBreakInEscape(row[i]);
      }
      NoBreakInJoin(EscapeAll(row));
    }
  }

  lemma ExportLinesParse(titles: seq<string>, rows: seq<seq<Option<string>>>)
    requires |titles| >= 1 && forall i :: 0 <= i < |titles| ==> !NeedsQuoting(titles[i])
    requires forall k :: 0 <= k < |rows| ==> |rows[k]| >= 1
    ensures forall k :: 0 <= k < |rows| + 1 ==>
      ParseLineCorrected(ExportLines(titles, rows)[k]) == ([titles] + TextRows(rows))[k]
  {
    forall k | 0 <= k < |rows| + 1
      ensures ParseLineCorrected(ExportLines(titles, rows)[k]) == ([titles] + TextRows(rows))[k]
    {
      ExportLineParses(titles, rows, k);
    }
  }

  lemma ExportLineParses(titles: seq<string>, rows: seq<seq<Option<string>>>, k: int)
    requires |titles| >= 1 && forall i :: 0 <= i < |titles| ==> !NeedsQuoting(titles[i])
    requires forall k :: 0 <= k < |rows| ==> |rows[k]| >= 1
    requires 0 <= k < |rows| + 1
    ensures ParseLineCorrected(ExportLines(titles, rows)[k]) == ([titles] + TextRows(rows))[k]
  {
    if k == 0 {
      HeaderRoundTrip(titles);
    } else {
      ExportDataLineParses(titles, rows, k);
    }
  }

  lemma ExportDataLineParses(titles: seq<string>, rows: seq<seq<Option<string>>>, k: int)
    requires 1 <= k <= |rows| && |rows[k - 1]| >= 1
    ensures ParseLineCorrected(ExportLines(titles, rows)[k]) == ([titles] + TextRows(rows))[k]
  {
    ExportLineAt(titles, rows, k);
    ExpectedRowAt(titles, rows, k);
    DataLineRoundTripCorrected(rows[k - 1]);
  }

  lemma ExportLineAt(titles: seq<string>, rows: seq<seq<Option<string>>>, k: int)
    requires 1 <= k <= |rows|
    ensures ExportLines(titles, rows)[k] == DataLine(rows[k - 1])
  {
    var m := k - 1;
    assert ExportLines(titles, rows)[m + 1] == DataLine(rows[m]);
  }

  lemma ExpectedRowAt(titles: seq<string>, rows: seq<seq<Option<string>>>, k: int)
    requires 1 <= k <= |rows|
    ensures ([titles] + TextRows(rows))[k] == Texts(rows[k - 1])
  {
  }

  /** With no blank line, every line is parsed into one row, in order. */
  lemma {:induction false} ReadNonBlank(lines: seq<string>, parse: string -> seq<string>)
    requires forall k :: 0 <= k < |lines| ==> !IsBlank(lines[k])
    ensures |ReadRows(lines, parse)| == |lines|
    ensures forall k :: 0 <= k < |lines| ==> ReadRows(lines, parse)[k] == parse(lines[k])
    decreases |lines|
  {
    if lines != [] {
      ReadNonBlank(lines[1..], parse);
    }
  }

  // ---------------------------------------------------------------------
  // generatePdfReport
  // ---------------------------------------------------------------------

  datatype Attachment = Attachment(path: string, usable: bool)

  datatype PdfReport = PdfReport(
    title: string,
    extraInfo: Option<string>,
    columns: nat,
    cells: seq<string>,
    images: seq<string>)

  function Flatten(rows: seq<seq<string>>): (cells: seq<string>)
    ensures rows != [] ==> cells == rows[0] + Flatten(rows[1..])
  {
    if rows == [] then [] else rows[0] + Flatten(rows[1..])
  }

  function UsableFn(): Attachment -> bool { (a: Attachment) => a.usable }

  function Paths(as_: seq<Attachment>): (ps: seq<string>)
    ensures |ps| == |as_| && forall i :: 0 <= i < |as_| ==> ps[i] == as_[i].path
  {
    seq(|as_|, i requires 0 <= i < |as_| => as_[i].path)
  }

  /** The document built from the rows a reader returned: none for no rows;
      otherwise the table is as wide as the first row, the cells flow in row
      order, and only the usable images are added. */
  function PdfOf(rows: seq<seq<string>>, charts: Option<seq<Attachment>>,
                 reportName: string, extraInfo: Option<string>): Option<PdfReport>
  {
    if rows == [] then None
    else Some(PdfReport(reportName, extraInfo, |rows[0]|, Flatten(rows),
                        Paths(Filter(charts.GetOr([]), UsableFn()))))
  }

  /** `generatePdfReport` as written: `csv` is the readable file's text
      (`None` for a missing or unreadable file), `charts` the image files
      (`None` for a null array), and the table comes from `readCsv`, whose
      cells keep their doubled quotes. */
  function GeneratePdfReport(csv: Option<string>, charts: Option<seq<Attachment>>,
                             reportName: string, extraInfo: Option<string>): (d: Option<PdfReport>)
    ensures csv.None? || csv == Some("") ==> d.None?
    ensures csv.Some? && csv.value != "" ==> (d.Some? <==> ReadCsv(csv.value) != [])
    ensures d.Some? ==>
      var rows := ReadCsv(csv.value);
      && d.value.title == reportName && d.value.extraInfo == extraInfo
      && d.value.columns == |rows[0]|
      && d.value.cells == Flatten(rows)
      && d.value.images == Paths(Filter(charts.GetOr([]), UsableFn()))
  {
    if csv.None? || csv.value == "" then None else PdfOf(ReadCsv(csv.value), charts, reportName, extraInfo)
  }

  /** The same report with the reader that un-doubles quotes. */
  function GeneratePdfReportCorrected(csv: Option<string>, charts: Option<seq<Attachment>>,
                                      reportName: string, extraInfo: Option<string>): (d: Option<PdfReport>)
    ensures csv.None? || csv == Some("") ==> d.None?
    ensures csv.Some? && csv.value != "" ==> (d.Some? <==> ReadCsvCorrected(csv.value) != [])
    ensures d.Some? ==>
      var rows := ReadCsvCorrected(csv.value);
      && d.value.title == reportName && d.value.extraInfo == extraInfo
      && d.value.columns == |rows[0]|
      && d.value.cells == Flatten(rows)
      && d.value.images == Paths(Filter(charts.GetOr([]), UsableFn()))
  {
    if csv.None? || csv.value == "" then None else PdfOf(ReadCsvCorrected(csv.value), charts, reportName, extraInfo)
  }

  /** The correction changes only the text of cells: both versions produce a
      document for the same files, with the same title, width, number of
      cells and images. */
  lemma CorrectionKeepsLayout(csv: Option<string>, charts: Option<seq<Attachment>>,
                              reportName: string, extraInfo: Option<string>)
    ensures var d := GeneratePdfReport(csv, charts, reportName, extraInfo);
      var e := GeneratePdfReportCorrected(csv, charts, reportName, extraInfo);
      && (d.Some? <==> e.Some?)
      && (d.Some? ==>
            && d.value.title == e.value.title && d.value.extraInfo == e.value.extraInfo
            && d.value.columns == e.value.columns
            && |d.value.cells| == |e.value.cells|
            && d.value.images == e.value.images)
  {
    if csv.Some? && csv.value != "" {
      SameShape(csv.value);
      FlattenSameLength(ReadCsv(csv.value), ReadCsvCorrected(csv.value));
    }
  }

  lemma {:induction false} FlattenSameLength(a: seq<seq<string>>, b: seq<seq<string>>)
    requires |a| == |b| && forall k :: 0 <= k < |a| ==> |a[k]| == |b[k]|
    ensures |Flatten(a)| == |Flatten(b)|
  {
    if a != [] {
      FlattenSameLength(a[1..], b[1..]);
    }
  }

  /** As written, a file holding the one cell `"a""b"` gives a document whose
      cell reads `a""b`; the corrected reader gives `a"b`. */
  lemma PdfKeepsDoubledQuotes()
    ensures GeneratePdfReport(Some("\"a\"\"b\""), None, "R", None) == Some(PdfReport("R", None, 1, ["a\"\"b"], []))
    ensures GeneratePdfReportCorrected(Some("\"a\"\"b\""), None, "R", None) == Some(PdfReport("R", None, 1, ["a\"b"], []))
  {
    var line := "\"a\"\"b\"";
    DoubledQuotesRows(line);
    PdfOfOneCell("a\"\"b");
    PdfOfOneCell("a\"b");
  }

  lemma DoubledQuotesRows(line: string)
    requires line == "\"a\"\"b\""
    ensures ReadCsv(line) == [["a\"\"b"]]
    ensures ReadCsvCorrected(line) == [["a\"b"]]
  {
    var cell := Some("a\"b");
    OneCellLine();
    QuotedCellComesBackDoubled();
    DataLineRoundTripCorrected([cell]);
    assert Texts([cell]) == ["a\"b"];
    ExampleHasNoBreak(line);
    ReadOneLine(line);
  }

  lemma ExampleHasNoBreak(line: string)
    requires line == "\"a\"\"b\""
    ensures forall k :: 0 <= k < |line| ==> !IsLineBreak(line[k])
  {
    forall k | 0 <= k < |line| ensures !IsLineBreak(line[k]) {
      assert line[k] in "a\"b";
    }
  }

  lemma OneCellLine()
    ensures DataLine([Some("a\"b")]) == "\"a\"\"b\""
  {
    EscapeExample();
    assert EscapeAll([Some("a\"b")]) == [EscapeCell(Some("a\"b"))];
  }

  lemma PdfOfOneCell(x: string)
    ensures PdfOf([[x]], None, "R", None) == Some(PdfReport("R", None, 1, [x], []))
  {
    var none: Option<seq<Attachment>> := None;
    assert none.GetOr([]) == [];
    assert Filter([], UsableFn()) == [];
    assert Flatten([[x]]) == [x] + Flatten([]);
    assert Paths([]) == [];
    assert Flatten([[x]]) == [x];
  }

  /** A text that is one non-blank line without a terminator is read as one row. */
  lemma ReadOneLine(line: string)
    requires NoLineBreak(line) && line != [] && !IsTrimmable(line[0])
    ensures ReadCsv(line) == [ParseLine(line)]
    ensures ReadCsvCorrected(line) == [ParseLineCorrected(line)]
  {
    LineEndWhole(line);
    assert line[..|line|] == line && line[|line|..] == [];
    assert ReadLines(line) == [line];
    assert !IsBlank(line);
    assert [line][1..] == [];
  }

  lemma LineEndWhole(line: string)
    requires NoLineBreak(line)
    ensures LineEnd(line) == |line|
  {
    assert line == line + "";
  }

  /** The early exits and the column count do not depend on how fields are
      unquoted: the reader as written and the corrected one give the same
      number of rows, of the same lengths. */
  lemma SameShape(text: string)
    ensures |ReadCsv(text)| == |ReadCsvCorrected(text)|
    ensures forall k :: 0 <= k < |ReadCsv(text)| ==> |ReadCsv(text)[k]| == |ReadCsvCorrected(text)[k]|
  {
    SameShapeRows(ReadLines(text));
  }

  lemma {:induction false} SameShapeRows(lines: seq<string>)
    ensures |ReadRows(lines, ParseLineFn())| == |ReadRows(lines, ParseLineCorrectedFn())|
    ensures forall k :: 0 <= k < |ReadRows(lines, ParseLineFn())| ==>
      |ReadRows(lines, ParseLineFn())[k]| == |ReadRows(lines, ParseLineCorrectedFn())[k]|
    decreases |lines|
  {
    if lines != [] {
      SameShapeRows(lines[1..]);
    }
  }

  /** An export of a table with at least one column and no blank line always
      yields a document as wide as the table; with quotes un-doubled its cells
      are the titles and then every row's cell texts, in order. */
  lemma ExportedFileHasDocument(titles: seq<string>, rows: seq<seq<Option<string>>>,
                                charts: Option<seq<Attachment>>, name: string)
    requires |titles| >= 1 && forall i :: 0 <= i < |titles| ==> !NeedsQuoting(titles[i]) && NoLineBreak(titles[i])
    requires forall k :: 0 <= k < |rows| ==> |rows[k]| >= 1
    requires forall k, i :: 0 <= k < |rows| && 0 <= i < |rows[k]| ==> NoLineBreak(CellText(rows[k][i]))
    requires forall k :: 0 <= k < |rows| + 1 ==> !IsBlank(ExportLines(titles, rows)[k])
    ensures var d := GeneratePdfReport(Some(WriteLines(ExportLines(titles, rows))), charts, name, None);
      d.Some? && d.value.columns == |titles|
    ensures var e := GeneratePdfReportCorrected(Some(WriteLines(ExportLines(titles, rows))), charts, name, None);
      e.Some? && e.value.columns == |titles| && e.value.cells == Flatten([titles] + TextRows(rows))
  {
    ExportRoundTripCorrected(titles, rows);
    var text := WriteLines(ExportLines(titles, rows));
    assert text == ExportLines(titles, rows)[0] + "\n" + WriteLines(ExportLines(titles, rows)[1..]);
    CorrectionKeepsLayout(Some(text), charts, name, None);
  }
}
