/** The CSV reader and writer with their default settings apart from the separator: quotes are
    added and removed, cells are not trimmed, quoted line breaks are not supported, and no
    line is skipped. */
module Csv {

  import opened Sequences

  type Table = seq<seq<string>>

  const QUOTE: string := "\""
  const TWO_QUOTES: string := "\"\""

  /** A separator that is none of the characters with a role of their own. */
  predicate Separator(sep: char) { sep != '"' && sep != '\r' && sep != '\n' }

  // ------------------------------------------------------- replacing substrings

  predicate Occurs(s: string, i: nat, search: string) { i <= |s| && search <= s[i..] }

  /** `s` with every occurrence of `search` replaced, from left to right and without overlap. */
  function Replace(s: string, search: string, put: string): string
    requires search != ""
    decreases |s|
  {
    if s == "" then ""
    else if search <= s then put + Replace(s[|search|..], search, put)
    else [s[0]] + Replace(s[1..], search, put)
  }

  lemma {:induction false} ReplaceSkips(s: string, i: nat, j: nat, search: string, put: string)
    requires search != "" && i <= j <= |s| && forall k :: i <= k < j ==> !Occurs(s, k, search)
    ensures Replace(s[i..], search, put) == s[i..j] + Replace(s[j..], search, put)
    decreases j - i
  {
    if i == j {
      ConcatEmpty(Replace(s[j..], search, put));
    } else {
      ReplaceSkips(s, i + 1, j, search, put);
      assert !Occurs(s, i, search);
      assert s[i..][1..] == s[i + 1..];
      assert s[i..j] == [s[i]] + s[i + 1..j];
      ConcatAssociates([s[i]], s[i + 1..j], Replace(s[j..], search, put));
    }
  }

  /** The first occurrence of `search` in `s` at or after `from`. */
  method Find(s: string, search: string, from: nat) returns (found: bool, pos: nat)
    requires search != "" && from <= |s|
    ensures from <= pos <= |s| && (found ==> Occurs(s, pos, search))
    ensures forall k :: from <= k < (if found then pos else |s|) ==> !Occurs(s, k, search)
  {
    pos := from;
    while pos + |search| <= |s|
      invariant from <= pos <= |s|
      invariant forall k :: from <= k < pos ==> !Occurs(s, k, search)
    {
      assert s[pos..][..|search|] == s[pos..pos + |search|];
      if s[pos..pos + |search|] == search {
        return true, pos;
      }
      pos := pos + 1;
    }
    return false, pos;
  }

  method ReplaceString(str: string, search: string, put: string) returns (r: string)
    requires search != ""
    ensures r == Replace(str, search, put)
  {
    r := str;
    var pos: nat := 0;
    var found: bool, at: nat;
    assert str[0..] == str && str[..0] == "";
    ConcatEmpty(Replace(str, search, put));
    found, at := Find(r, search, pos);
    while found
      invariant pos <= at <= |r| && (found ==> Occurs(r, at, search))
      invariant forall k :: pos <= k < (if found then at else |r|) ==> !Occurs(r, k, search)
      invariant r[..pos] + Replace(r[pos..], search, put) == Replace(str, search, put)
      decreases |r| - pos, found
    {
      pos, r := Splice(r, pos, at, search, put);
      found, at := Find(r, search, pos);
    }
    NothingLeft(r, pos, search, put);
  }

  lemma NothingLeft(s: string, i: nat, search: string, put: string)
    requires search != "" && i <= |s| && forall k :: i <= k < |s| ==> !Occurs(s, k, search)
    ensures s[..i] + Replace(s[i..], search, put) == s
  {
    ReplaceSkips(s, i, |s|, search, put);
    ConcatEmpty(s[i..|s|]);
    assert s[..i] + s[i..|s|] == s;
  }

  /** One replacement in place. */
  method Splice(s: string, pos: nat, at: nat, search: string, put: string) returns (end: nat, r: string)
    requires search != "" && pos <= at <= |s| && Occurs(s, at, search)
    requires forall k :: pos <= k < at ==> !Occurs(s, k, search)
    ensures r == s[..at] + put + s[at + |search|..] && end == at + |put| <= |r|
    ensures r[..end] + Replace(r[end..], search, put) == s[..pos] + Replace(s[pos..], search, put)
    ensures |r| - end < |s| - pos
  {
    r := s[..at] + put + s[at + |search|..];
    end := at + |put|;
    ReplaceSkips(s, pos, at, search, put);
    assert r[end..] == s[at + |search|..] == s[at..][|search|..];
    ghost var rest := Replace(r[end..], search, put);
    assert r[..end] == s[..at] + put;
    assert s[..at] == s[..pos] + s[pos..at];
    ConcatAssociates(s[..at], put, rest);
    ConcatAssociates(s[..pos], s[pos..at], put + rest);
  }

  // ----------------------------------------------------------- quotes in a cell

  /** Doubling the quotes of a cell. */
  function Doubled(c: string): string {
    if c == "" then "" else (if c[0] == '"' then TWO_QUOTES else [c[0]]) + Doubled(c[1..])
  }

  lemma {:induction false} ReplaceDoubles(c: string)
    ensures Replace(c, QUOTE, TWO_QUOTES) == Doubled(c)
    decreases |c|
  {
    if c != "" {
      ReplaceDoubles(c[1..]);
      assert QUOTE <= c <==> c[0] == '"';
    }
  }

  /** Halving undoes doubling. */
  lemma {:induction false} HalveDouble(c: string)
    ensures Replace(Doubled(c), TWO_QUOTES, QUOTE) == c
    decreases |c|
  {
    if c != "" {
      HalveDouble(c[1..]);
      var d := Doubled(c);
      assert d[if c[0] == '"' then 2 else 1..] == Doubled(c[1..]);
      assert d[0] == c[0] && (c[0] == '"' ==> d[1] == '"');
      assert c == [c[0]] + c[1..];
    }
  }

  // ----------------------------------------------------------------- writing

  predicate NeedsQuotes(sep: char, c: string) { sep in c || ' ' in c }

  function PrintCell(sep: char, c: string): string {
    if NeedsQuotes(sep, c) then QUOTE + Replace(c, QUOTE, TWO_QUOTES) + QUOTE else c
  }

  /** A cell of a row with the separator after it. */
  function PrintNext(sep: char, row: seq<string>, j: nat): string
    requires j < |row|
  {
    PrintCell(sep, row[j]) + (if j + 1 < |row| then [sep] else "")
  }

  /** The cells of a row from index `j` on. */
  function PrintCells(sep: char, row: seq<string>, j: nat): string
    decreases |row| - j
  {
    if j >= |row| then "" else PrintNext(sep, row, j) + PrintCells(sep, row, j + 1)
  }

  function LineEnd(hasCR: bool): string { if hasCR then "\r\n" else "\n" }

  /** The rows of a table from index `i` on. */
  function PrintRows(sep: char, hasCR: bool, t: Table, i: nat): string
    decreases |t| - i
  {
    if i >= |t| then "" else PrintRow(sep, hasCR, t[i]) + PrintRows(sep, hasCR, t, i + 1)
  }

  function PrintRow(sep: char, hasCR: bool, row: seq<string>): string {
    PrintCells(sep, row, 0) + LineEnd(hasCR)
  }

  method WriteCsv(sep: char, hasCR: bool, t: Table) returns (out: string)
    ensures out == PrintRows(sep, hasCR, t, 0)
  {
    out := "";
    ConcatEmpty(PrintRows(sep, hasCR, t, 0));
    for i := 0 to |t|
      invariant out + PrintRows(sep, hasCR, t, i) == PrintRows(sep, hasCR, t, 0)
    {
      ConcatAssociates(out, PrintRow(sep, hasCR, t[i]), PrintRows(sep, hasCR, t, i + 1));
      var line := WriteRow(sep, t[i]);
      out := out + (line + LineEnd(hasCR));
    }
    ConcatEmpty(out);
  }

  method WriteRow(sep: char, row: seq<string>) returns (out: string)
    ensures out == PrintCells(sep, row, 0)
  {
    out := "";
    ConcatEmpty(PrintCells(sep, row, 0));
    for j := 0 to |row|
      invariant out + PrintCells(sep, row, j) == PrintCells(sep, row, 0)
    {
      ConcatAssociates(out, PrintNext(sep, row, j), PrintCells(sep, row, j + 1));
      var cell := WriteCell(sep, row[j]);
      out := out + (cell + (if j + 1 < |row| then [sep] else ""));
    }
    ConcatEmpty(out);
  }

  method WriteCell(sep: char, cell: string) returns (out: string)
    ensures out == PrintCell(sep, cell)
    ensures out == if sep in cell || ' ' in cell then "\"" + Doubled(cell) + "\"" else cell
  {
    ReplaceDoubles(cell);
    if NeedsQuotes(sep, cell) {
      var str := ReplaceString(cell, QUOTE, TWO_QUOTES);
      out := QUOTE + str + QUOTE;
    } else {
      out := cell;
    }
  }

  /** Doubling, character by character. */
  lemma {:induction false} DoubledIs(a: string, b: string, ch: char)
    ensures Doubled(a + b) == Doubled(a) + Doubled(b)
    ensures Doubled([ch]) == if ch == '"' then "\"\"" else [ch]
  {
    if a == "" {
      ConcatEmpty(b);
    } else {
      DoubledIs(a[1..], b, ch);
      assert (a + b)[1..] == a[1..] + b;
      ConcatAssociates(if a[0] == '"' then TWO_QUOTES else [a[0]], Doubled(a[1..]), Doubled(b));
    }
    assert [ch][1..] == "";
  }

  lemma {:induction false} PrintCellsFrom(sep: char, front: seq<string>, row: seq<string>, j: nat)
    requires j <= |row|
    ensures PrintCells(sep, front + row, |front| + j) == PrintCells(sep, row, j)
    decreases |row| - j
  {
    if j < |row| { PrintCellsFrom(sep, front, row, j + 1); }
  }

  lemma {:induction false} PrintCellsBefore(sep: char, front: seq<string>, row: seq<string>, j: nat)
    requires j < |front| && row != []
    ensures PrintCells(sep, front + row, j) == PrintCells(sep, front, j) + [sep] + PrintCells(sep, row, 0)
    decreases |front| - j
  {
    if j + 1 < |front| {
      PrintCellsBefore(sep, front, row, j + 1);
      ConcatAssociates(PrintCells(sep, front, j + 1), [sep], PrintCells(sep, row, 0));
      ConcatAssociates(PrintNext(sep, front, j), PrintCells(sep, front, j + 1), [sep] + PrintCells(sep, row, 0));
      ConcatAssociates(PrintCells(sep, front, j), [sep], PrintCells(sep, row, 0));
    } else {
      PrintCellsFrom(sep, front, row, 0);
      ConcatEmpty(PrintCell(sep, front[j]));
    }
  }

  lemma PrintCellsOne(sep: char, c: string)
    ensures PrintCells(sep, [c], 0) == PrintCell(sep, c)
  {
    ConcatEmpty(PrintCell(sep, c));
  }

  /** The text of a row: its cells with one separator between two of them. A cell that holds the
      separator or a space stands between quotes, with its own quotes doubled. */
  lemma RowText(sep: char, front: seq<string>, c: string)
    ensures var shown := if sep in c || ' ' in c then "\"" + Doubled(c) + "\"" else c;
            PrintCells(sep, front + [c], 0) == if front == [] then shown else PrintCells(sep, front, 0) + [sep] + shown
  {
    ReplaceDoubles(c);
    PrintCellsOne(sep, c);
    if front == [] { ConcatEmpty([c]); } else { PrintCellsBefore(sep, front, [c], 0); }
  }

  lemma {:induction false} PrintRowsAppend(sep: char, hasCR: bool, t: Table, row: seq<string>, i: nat)
    requires i <= |t|
    ensures PrintRows(sep, hasCR, t + [row], i) == PrintRows(sep, hasCR, t, i) + PrintRow(sep, hasCR, row)
    decreases |t| - i
  {
    if i < |t| {
      PrintRowsAppend(sep, hasCR, t, row, i + 1);
      ConcatAssociates(PrintRow(sep, hasCR, t[i]), PrintRows(sep, hasCR, t, i + 1), PrintRow(sep, hasCR, row));
    } else {
      ConcatEmpty(PrintRow(sep, hasCR, row));
    }
  }

  /** The text of a table: its rows, each with its line break. */
  lemma TableText(sep: char, hasCR: bool, t: Table, row: seq<string>)
    ensures PrintRows(sep, hasCR, [], 0) == ""
    ensures PrintRows(sep, hasCR, t + [row], 0)
         == PrintRows(sep, hasCR, t, 0) + PrintCells(sep, row, 0) + if hasCR then "\r\n" else "\n"
  {
    PrintRowsAppend(sep, hasCR, t, row, 0);
    ConcatAssociates(PrintRows(sep, hasCR, t, 0), PrintCells(sep, row, 0), LineEnd(hasCR));
  }

  // ----------------------------------------------------------------- reading

  predicate InQuotes(c: string) { |c| >= 2 && c[0] == '"' && c[|c| - 1] == '"' }

  /** Takes off the quotes around a cell and halves those inside. */
  function Unquote(s: string): string {
    if InQuotes(s) then Replace(s[1..|s| - 1], TWO_QUOTES, QUOTE) else s
  }

  /** The reader between two characters. */
  datatype Reader = Reader(rows: Table, row: seq<string>, cell: string, quoted: bool, cr: nat, lf: nat)

  function Start(): Reader { Reader([], [], "", false, 0, 0) }

  function Step(sep: char, s: Reader, ch: char): Reader {
    if ch == '"' then
      s.(quoted := if s.cell == "" || s.cell[0] == '"' then !s.quoted else s.quoted, cell := s.cell + [ch])
    else if ch == sep then
      if s.quoted then s.(cell := s.cell + [ch]) else s.(row := s.row + [Unquote(s.cell)], cell := "")
    else if ch == '\r' then s.(cr := s.cr + 1)
    else if ch == '\n' then
      s.(lf := s.lf + 1, rows := s.rows + [s.row + [Unquote(s.cell)]], row := [], cell := "", quoted := false)
    else s.(cell := s.cell + [ch])
  }

  function Feed(sep: char, s: Reader, text: string): Reader
    decreases |text|
  {
    if text == "" then s else Feed(sep, Step(sep, s, text[0]), text[1..])
  }

  /** A last line without a line break still counts. */
  function Finish(s: Reader): Table {
    if s.cell != "" || s.row != [] then s.rows + [s.row + [Unquote(s.cell)]] else s.rows
  }

  /** Carriage returns are assumed if at least half the line breaks have one. */
  function SeenCR(s: Reader): bool { s.cr > s.lf / 2 }

  lemma {:induction false} FeedCounts(sep: char, s: Reader, text: string)
    requires Separator(sep)
    ensures Feed(sep, s, text).cr == s.cr + multiset(text)['\r']
    ensures Feed(sep, s, text).lf == s.lf + multiset(text)['\n']
    decreases |text|
  {
    if text != "" {
      FeedCounts(sep, Step(sep, s, text[0]), text[1..]);
      assert text == [text[0]] + text[1..];
    }
  }

  /** The reader's double loop over blocks of `block` characters. The result does not depend on
      the block size. */
  method ParseCsv(sep: char, text: string, block: nat) returns (t: Table, hasCR: bool)
    requires block > 0
    ensures t == Finish(Feed(sep, Start(), text))
    ensures hasCR == SeenCR(Feed(sep, Start(), text))
    ensures Separator(sep) ==> hasCR == (multiset(text)['\r'] > multiset(text)['\n'] / 2)
  {
    if Separator(sep) { FeedCounts(sep, Start(), text); }
    var rows: Table, row: seq<string>, cell := [], [], "";
    var quoted, cr, lf := false, 0, 0;
    var left := |text|;
    while left > 0
      invariant 0 <= left <= |text|
      invariant Feed(sep, Reader(rows, row, cell, quoted, cr, lf), text[|text| - left..]) == Feed(sep, Start(), text)
    {
      var from := |text| - left;
      var length := if left < block then left else block;
      var i := 0;
      while i < length
        invariant 0 <= i <= length
        invariant Feed(sep, Reader(rows, row, cell, quoted, cr, lf), text[from + i..]) == Feed(sep, Start(), text)
      {
        var ch := text[from + i];
        assert text[from + i..][1..] == text[from + i + 1..];
        if ch == '"' {
          if cell == "" || cell[0] == '"' {
            quoted := !quoted;
          }
          cell := cell + [ch];
        } else if ch == sep {
          if !quoted {
            row := row + [Unquote(cell)];
            cell := "";
          } else {
            cell := cell + [ch];
          }
        } else if ch == '\r' {
          cr := cr + 1;
        } else if ch == '\n' {
          lf := lf + 1;
          row := row + [Unquote(cell)];
          rows := rows + [row];
          cell, row, quoted := "", [], false;
        } else {
          cell := cell + [ch];
        }
        i := i + 1;
      }
      left := left - length;
    }
    hasCR := cr > lf / 2;
    if cell != "" || row != [] {
      row := row + [Unquote(cell)];
      rows := rows + [row];
    }
    t := rows;
  }

  // -------------------------------------------------------- feeding printed text

  lemma {:induction false} FeedAppend(sep: char, s: Reader, a: string, b: string)
    ensures Feed(sep, s, a + b) == Feed(sep, Feed(sep, s, a), b)
    decreases |a|
  {
    if a == "" {
      ConcatEmpty(b);
    } else {
      FeedAppend(sep, Step(sep, s, a[0]), a[1..], b);
      assert (a + b)[1..] == a[1..] + b;
    }
  }

  predicate CleanCell(c: string) { '\r' !in c && '\n' !in c }

  /** An odd number of quotes. */
  predicate Odd(c: string) { c != "" && ((c[|c| - 1] == '"') != Odd(c[..|c| - 1])) }

  /** A quote at the start that nothing closes. */
  predicate Open(c: string) { c != "" && c[0] == '"' && Odd(c) }

  lemma {:induction false} FeedPlain(sep: char, s: Reader, c: string)
    requires Separator(sep) && CleanCell(c) && sep !in c && s.quoted == Open(s.cell)
    ensures Feed(sep, s, c) == s.(cell := s.cell + c, quoted := Open(s.cell + c))
    decreases |c|
  {
    if c == "" {
      ConcatEmpty(s.cell);
    } else {
      var next := s.cell + [c[0]];
      assert next[..|next| - 1] == s.cell;
      assert Step(sep, s, c[0]) == s.(cell := next, quoted := Open(next));
      FeedPlain(sep, Step(sep, s, c[0]), c[1..]);
      ConcatAssociates(s.cell, [c[0]], c[1..]);
      assert c == [c[0]] + c[1..];
    }
  }

  lemma {:induction false} FeedDoubled(sep: char, s: Reader, c: string)
    requires Separator(sep) && CleanCell(c) && s.quoted && s.cell != "" && s.cell[0] == '"'
    ensures Feed(sep, s, Doubled(c)) == s.(cell := s.cell + Doubled(c))
    decreases |c|
  {
    if c == "" {
      ConcatEmpty(s.cell);
    } else {
      var head := if c[0] == '"' then TWO_QUOTES else [c[0]];
      FeedAppend(sep, s, head, Doubled(c[1..]));
      FeedHead(sep, s, c[0], head);
      FeedDoubled(sep, s.(cell := s.cell + head), c[1..]);
      ConcatAssociates(s.cell, head, Doubled(c[1..]));
    }
  }

  lemma FeedHead(sep: char, s: Reader, ch: char, head: string)
    requires Separator(sep) && ch != '\r' && ch != '\n' && s.quoted && s.cell != "" && s.cell[0] == '"'
    requires head == if ch == '"' then TWO_QUOTES else [ch]
    ensures Feed(sep, s, head) == s.(cell := s.cell + head)
  {
    FeedOne(sep, s, head[0]);
    if ch == '"' {
      assert head == [head[0]] + [head[1]];
      FeedAppend(sep, s, [head[0]], [head[1]]);
      FeedOne(sep, Step(sep, s, head[0]), head[1]);
      ConcatAssociates(s.cell, [head[0]], [head[1]]);
    }
  }

  lemma FeedOne(sep: char, s: Reader, ch: char)
    ensures Feed(sep, s, [ch]) == Step(sep, s, ch)
  {
    assert Feed(sep, s, [ch]) == Feed(sep, Step(sep, s, ch), [ch][1..]);
  }

  /** Ready for the next cell. */
  predicate Ready(s: Reader) { s.cell == "" && !s.quoted }

  /** What reading a printed cell leaves pending. */
  lemma FeedCell(sep: char, s: Reader, c: string)
    requires Separator(sep) && CleanCell(c) && Ready(s)
    ensures Feed(sep, s, PrintCell(sep, c))
         == s.(cell := PrintCell(sep, c), quoted := !NeedsQuotes(sep, c) && Open(c))
  {
    ConcatEmpty(c);
    if NeedsQuotes(sep, c) {
      ReplaceDoubles(c);
      assert QUOTE == ['"'] == s.cell + QUOTE;
      var start := s.(cell := QUOTE, quoted := true);
      var inside := start.(cell := QUOTE + Doubled(c));
      FeedOne(sep, s, '"');
      assert Feed(sep, s, QUOTE) == start;
      FeedDoubled(sep, start, c);
      FeedAppend(sep, s, QUOTE, Doubled(c));
      FeedOne(sep, inside, '"');
      FeedAppend(sep, s, QUOTE + Doubled(c), QUOTE);
    } else {
      FeedPlain(sep, s, c);
    }
  }

  lemma UnquotePrinted(sep: char, c: string)
    requires NeedsQuotes(sep, c)
    ensures Unquote(PrintCell(sep, c)) == c
  {
    var p := PrintCell(sep, c);
    ReplaceDoubles(c);
    assert p[1..|p| - 1] == Doubled(c);
    HalveDouble(c);
  }

  function EndLine(s: Reader, hasCR: bool): Reader {
    s.(rows := s.rows + [s.row + [Unquote(s.cell)]], row := [], cell := "", quoted := false,
       cr := s.cr + (if hasCR then 1 else 0), lf := s.lf + 1)
  }

  lemma FeedLineEnd(sep: char, s: Reader, hasCR: bool)
    requires Separator(sep)
    ensures Feed(sep, s, LineEnd(hasCR)) == EndLine(s, hasCR)
  {
    FeedOne(sep, s, '\n');
    if hasCR {
      FeedAppend(sep, s, "\r", "\n");
      assert "\r" + "\n" == "\r\n";
      FeedOne(sep, s, '\r');
      FeedOne(sep, Step(sep, s, '\r'), '\n');
    }
  }

  // ------------------------------------------------------------- the round trip

  /** The cells that survive writing and reading: without line breaks, and, where no quotes are
      added, not looking quoted themselves nor opening a quote that swallows the separator. */
  predicate CellOk(sep: char, c: string, last: bool) {
    CleanCell(c) && (NeedsQuotes(sep, c) || (!InQuotes(c) && (last || !Open(c))))
  }

  predicate RowOk(sep: char, row: seq<string>, j: nat) {
    j < |row| && forall k :: j <= k < |row| ==> CellOk(sep, row[k], k + 1 == |row|)
  }

  predicate TableOk(sep: char, t: Table, i: nat) { forall k :: i <= k < |t| ==> RowOk(sep, t[k], 0) }

  /** Reading a surviving cell that is not the last one. */
  lemma FeedNext(sep: char, s: Reader, row: seq<string>, j: nat)
    requires Separator(sep) && j + 1 < |row| && CellOk(sep, row[j], false) && Ready(s) && s.row == row[..j]
    ensures Feed(sep, s, PrintNext(sep, row, j)) == s.(row := row[..j + 1])
  {
    var c := row[j];
    var pending := s.(cell := PrintCell(sep, c), quoted := false);
    FeedCell(sep, s, c);
    FeedAppend(sep, s, PrintCell(sep, c), [sep]);
    FeedOne(sep, pending, sep);
    if NeedsQuotes(sep, c) { UnquotePrinted(sep, c); }
    PrefixStep(row, j);
  }

  lemma {:induction false} FeedRow(sep: char, hasCR: bool, s: Reader, row: seq<string>, j: nat)
    requires Separator(sep) && RowOk(sep, row, j) && Ready(s) && s.row == row[..j]
    ensures Feed(sep, s, PrintCells(sep, row, j) + LineEnd(hasCR))
         == s.(rows := s.rows + [row], row := [], cr := s.cr + (if hasCR then 1 else 0), lf := s.lf + 1)
    decreases |row| - j
  {
    var rest := PrintCells(sep, row, j + 1) + LineEnd(hasCR);
    ConcatAssociates(PrintNext(sep, row, j), PrintCells(sep, row, j + 1), LineEnd(hasCR));
    FeedAppend(sep, s, PrintNext(sep, row, j), rest);
    if j + 1 < |row| {
      FeedNext(sep, s, row, j);
      FeedRow(sep, hasCR, s.(row := row[..j + 1]), row, j + 1);
    } else {
      FeedLast(sep, hasCR, s, row, j);
    }
  }

  lemma FeedLast(sep: char, hasCR: bool, s: Reader, row: seq<string>, j: nat)
    requires Separator(sep) && j + 1 == |row| && CellOk(sep, row[j], true) && Ready(s) && s.row == row[..j]
    ensures Feed(sep, Feed(sep, s, PrintNext(sep, row, j)), PrintCells(sep, row, j + 1) + LineEnd(hasCR))
         == s.(rows := s.rows + [row], row := [], cr := s.cr + (if hasCR then 1 else 0), lf := s.lf + 1)
  {
    var c := row[j];
    FeedCell(sep, s, c);
    ConcatEmpty(PrintCell(sep, c));
    ConcatEmpty(LineEnd(hasCR));
    FeedLineEnd(sep, Feed(sep, s, PrintCell(sep, c)), hasCR);
    if NeedsQuotes(sep, c) { UnquotePrinted(sep, c); }
    PrefixStep(row, j);
    PrefixAll(row);
  }

  // ------------------------------------------------- what later characters can change

  /** Halving quotes neither adds nor removes other characters, and never lengthens. */
  lemma {:induction false} HalvingKeeps(s: string, x: char)
    requires x != '"'
    ensures x in Replace(s, TWO_QUOTES, QUOTE) <==> x in s
    ensures |Replace(s, TWO_QUOTES, QUOTE)| <= |s|
    decreases |s|
  {
    if s != "" {
      var n := if TWO_QUOTES <= s then 2 else 1;
      HalvingKeeps(s[n..], x);
      assert s == s[..n] + s[n..];
    }
  }

  lemma UnquoteKeeps(c: string, x: char)
    requires x != '"'
    ensures x in Unquote(c) <==> x in c
    ensures InQuotes(c) ==> |Unquote(c)| < |c|
  {
    if InQuotes(c) {
      var inner := c[1..|c| - 1];
      HalvingKeeps(inner, x);
      assert c == QUOTE + inner + QUOTE;
    }
  }

  /** `c` may have come from a pending cell that started with `start`. */
  ghost predicate GrownFrom(c: string, start: string) { exists raw: string :: start <= raw && c == Unquote(raw) }

  /** The finished table `t` keeps the rows and cells read so far, and the pending cell, if not
      empty, becomes a cell that grew from it. */
  ghost predicate Extends(t: Table, s: Reader) {
    && s.rows <= t
    && (s.row != [] || s.cell != "" ==> |s.rows| < |t| && s.row <= t[|s.rows|])
    && (s.cell != "" ==> |s.row| < |t[|s.rows|]| && GrownFrom(t[|s.rows|][|s.row|], s.cell))
  }

  lemma StepExtends(sep: char, s: Reader, ch: char, t: Table)
    requires Separator(sep) && Extends(t, Step(sep, s, ch))
    ensures Extends(t, s)
  {
    var next := Step(sep, s, ch);
    if next.cell == s.cell + [ch] {
      var raw: string :| next.cell <= raw && t[|s.rows|][|s.row|] == Unquote(raw);
      assert s.cell <= raw;
    } else if next.cell == "" && s.cell != "" {
      assert s.cell <= s.cell;
      if ch == '\n' {
        assert next.rows[|s.rows|] == s.row + [Unquote(s.cell)];
      }
    }
  }

  lemma {:induction false} FeedExtends(sep: char, s: Reader, text: string)
    requires Separator(sep)
    ensures Extends(Finish(Feed(sep, s, text)), s)
    decreases |text|
  {
    if text == "" {
      assert s.cell <= s.cell;
    } else {
      FeedExtends(sep, Step(sep, s, text[0]), text[1..]);
      StepExtends(sep, s, text[0], Finish(Feed(sep, s, text)));
    }
  }

  predicate CleanCells(row: seq<string>) { forall k :: 0 <= k < |row| ==> CleanCell(row[k]) }

  predicate CleanRows(t: Table) { forall k :: 0 <= k < |t| ==> t[k] != [] && CleanCells(t[k]) }

  lemma CleanUnquote(c: string)
    requires CleanCell(c)
    ensures CleanCell(Unquote(c))
  {
    UnquoteKeeps(c, '\r');
    UnquoteKeeps(c, '\n');
  }

  /** No parsed cell holds a line break and no parsed row is empty. */
  lemma {:induction false} FeedClean(sep: char, s: Reader, text: string)
    requires Separator(sep) && CleanRows(s.rows) && CleanCells(s.row) && CleanCell(s.cell)
    ensures CleanRows(Finish(Feed(sep, s, text)))
    decreases |text|
  {
    CleanUnquote(s.cell);
    if text != "" {
      FeedClean(sep, Step(sep, s, text[0]), text[1..]);
    }
  }

  // --------------------------------------------------------- exactly when it round-trips

  /** A bad cell comes back as something else. */
  lemma BadCell(sep: char, hasCR: bool, s: Reader, row: seq<string>, j: nat, text: string)
    requires Separator(sep) && j < |row| && CleanCell(row[j]) && !CellOk(sep, row[j], j + 1 == |row|)
    requires Ready(s) && s.row == row[..j]
    ensures var rest := if j + 1 < |row| then text else LineEnd(hasCR) + text;
            var t := Finish(Feed(sep, s, PrintNext(sep, row, j) + rest));
            |s.rows| < |t| && t[|s.rows|] != row
  {
    var c := row[j];
    var pending := s.(cell := c, quoted := Open(c));
    FeedCell(sep, s, c);
    UnquoteKeeps(c, 'x');
    if j + 1 == |row| {
      ConcatEmpty(c);
      FeedAppend(sep, s, c, LineEnd(hasCR) + text);
      FeedAppend(sep, pending, LineEnd(hasCR), text);
      FeedLineEnd(sep, pending, hasCR);
      FeedExtends(sep, EndLine(pending, hasCR), text);
      assert EndLine(pending, hasCR).rows[|s.rows|][j] == Unquote(c);
    } else {
      FeedAppend(sep, s, PrintNext(sep, row, j), text);
      FeedAppend(sep, s, c, [sep]);
      FeedOne(sep, pending, sep);
      FeedExtends(sep, Step(sep, pending, sep), text);
      if Open(c) {
        SwallowedSeparator(sep, c, Finish(Feed(sep, Step(sep, pending, sep), text))[|s.rows|][j]);
      }
    }
  }

  lemma SwallowedSeparator(sep: char, c: string, parsed: string)
    requires Separator(sep) && sep !in c && GrownFrom(parsed, c + [sep])
    ensures parsed != c
  {
    var raw: string :| c + [sep] <= raw && parsed == Unquote(raw);
    assert raw[|c|] == sep;
    UnquoteKeeps(raw, sep);
  }

  lemma {:induction false} BadRow(sep: char, hasCR: bool, s: Reader, row: seq<string>, j: nat, text: string)
    requires Separator(sep) && CleanCells(row) && j < |row| && !RowOk(sep, row, j)
    requires Ready(s) && s.row == row[..j]
    ensures var t := Finish(Feed(sep, s, PrintCells(sep, row, j) + (LineEnd(hasCR) + text)));
            |s.rows| < |t| && t[|s.rows|] != row
    decreases |row| - j
  {
    var rest := PrintCells(sep, row, j + 1) + (LineEnd(hasCR) + text);
    ConcatAssociates(PrintNext(sep, row, j), PrintCells(sep, row, j + 1), LineEnd(hasCR) + text);
    if !CellOk(sep, row[j], j + 1 == |row|) {
      ConcatEmpty(LineEnd(hasCR) + text);
      BadCell(sep, hasCR, s, row, j, if j + 1 < |row| then rest else text);
    } else {
      FeedAppend(sep, s, PrintNext(sep, row, j), rest);
      FeedNext(sep, s, row, j);
      BadRow(sep, hasCR, s.(row := row[..j + 1]), row, j + 1, text);
    }
  }

  lemma {:induction false} FeedRows(sep: char, hasCR: bool, s: Reader, t: Table, i: nat)
    requires Separator(sep) && CleanRows(t) && i <= |t|
    requires Ready(s) && s.row == [] && s.rows == t[..i] && s.cr == (if hasCR then i else 0) && s.lf == i
    ensures Finish(Feed(sep, s, PrintRows(sep, hasCR, t, i))) == t <==> TableOk(sep, t, i)
    ensures TableOk(sep, t, i) ==> SeenCR(Feed(sep, s, PrintRows(sep, hasCR, t, i))) == (hasCR && t != [])
    decreases |t| - i
  {
    if i == |t| {
      PrefixAll(t);
    } else {
      var text := PrintRows(sep, hasCR, t, i + 1);
      if RowOk(sep, t[i], 0) {
        FeedAppend(sep, s, PrintRow(sep, hasCR, t[i]), text);
        FeedRow(sep, hasCR, s, t[i], 0);
        PrefixStep(t, i);
        TableOkStep(sep, t, i);
        FeedRows(sep, hasCR, Feed(sep, s, PrintRow(sep, hasCR, t[i])), t, i + 1);
      } else {
        ConcatAssociates(PrintCells(sep, t[i], 0), LineEnd(hasCR), text);
        BadRow(sep, hasCR, s, t[i], 0, text);
      }
    }
  }

  lemma TableOkStep(sep: char, t: Table, i: nat)
    requires i < |t|
    ensures TableOk(sep, t, i) <==> RowOk(sep, t[i], 0) && TableOk(sep, t, i + 1)
  {
  }

  /** Reading back what was written gives the same table exactly if every cell survives, and
      then, unless the table is empty, the same line-break setting. */
  lemma RoundTrip(sep: char, hasCR: bool, t: Table)
    requires Separator(sep)
    ensures var s := Feed(sep, Start(), PrintRows(sep, hasCR, t, 0));
            && (Finish(s) == t <==> TableOk(sep, t, 0))
            && (TableOk(sep, t, 0) ==> SeenCR(s) == (hasCR && t != []))
  {
    var text := PrintRows(sep, hasCR, t, 0);
    FeedClean(sep, Start(), text);
    if CleanRows(t) {
      FeedRows(sep, hasCR, Start(), t, 0);
    } else {
      assert !TableOk(sep, t, 0);
    }
  }

  lemma {:induction false} OddIs(c: string)
    ensures Odd(c) <==> multiset(c)['"'] % 2 == 1
  {
    if c != "" {
      OddIs(c[..|c| - 1]);
      assert c == c[..|c| - 1] + [c[|c| - 1]];
    }
  }

  lemma CellOkIs(sep: char, c: string, last: bool)
    ensures CellOk(sep, c, last) <==>
            && '\r' !in c && '\n' !in c
            && (sep in c || ' ' in c || (!(|c| >= 2 && c[0] == '"' && c[|c| - 1] == '"')
                                       && (last || |c| == 0 || c[0] != '"' || multiset(c)['"'] % 2 == 0)))
  {
    OddIs(c);
  }

  /** Which tables survive, spelled out: every row has a cell, and every cell is without line
      breaks and, unless it is printed between quotes because it holds the separator or a space,
      neither between quotes itself nor, before another cell, with a quote at its start among an
      odd number of them. */
  lemma TableOkIs(sep: char, t: Table)
    ensures TableOk(sep, t, 0) <==>
            forall i :: 0 <= i < |t| ==>
              t[i] != [] && forall j :: 0 <= j < |t[i]| ==>
                var c := t[i][j];
                && '\r' !in c && '\n' !in c
                && (sep in c || ' ' in c || (!(|c| >= 2 && c[0] == '"' && c[|c| - 1] == '"')
                                           && (j + 1 == |t[i]| || |c| == 0 || c[0] != '"' || multiset(c)['"'] % 2 == 0)))
  {
    forall c: string, last: bool
      ensures CellOk(sep, c, last) <==>
              && '\r' !in c && '\n' !in c
              && (sep in c || ' ' in c || (!(|c| >= 2 && c[0] == '"' && c[|c| - 1] == '"')
                                         && (last || |c| == 0 || c[0] != '"' || multiset(c)['"'] % 2 == 0)))
    {
      CellOkIs(sep, c, last);
    }
  }

  /** A table of cells without line breaks that each hold the separator or a space comes back. */
  lemma QuotedTableReturns(sep: char, hasCR: bool, t: Table)
    requires Separator(sep) && forall i :: 0 <= i < |t| ==> t[i] != []
    requires forall i, j :: 0 <= i < |t| && 0 <= j < |t[i]| ==>
               '\r' !in t[i][j] && '\n' !in t[i][j] && (sep in t[i][j] || ' ' in t[i][j])
    ensures Finish(Feed(sep, Start(), PrintRows(sep, hasCR, t, 0))) == t
  {
    TableOkIs(sep, t);
    RoundTrip(sep, hasCR, t);
  }

  /** Saving and loading with the two methods. */
  method SaveAndLoad(sep: char, hasCR: bool, t: Table, block: nat) returns (again: Table, seenCR: bool)
    requires Separator(sep) && block > 0
    ensures again == t <==>
            forall i :: 0 <= i < |t| ==>
              t[i] != [] && forall j :: 0 <= j < |t[i]| ==>
                var c := t[i][j];
                && '\r' !in c && '\n' !in c
                && (sep in c || ' ' in c || (!(|c| >= 2 && c[0] == '"' && c[|c| - 1] == '"')
                                           && (j + 1 == |t[i]| || |c| == 0 || c[0] != '"' || multiset(c)['"'] % 2 == 0)))
    ensures again == t && t != [] ==> seenCR == hasCR
  {
    var text := WriteCsv(sep, hasCR, t);
    again, seenCR := ParseCsv(sep, text, block);
    RoundTrip(sep, hasCR, t);
    TableOkIs(sep, t);
  }
}
