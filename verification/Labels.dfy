/** The label map of a descriptor set: how label numbers are given out, and the text file the
    map is saved to and loaded from. */
module Labels {

  import opened Sequences

  datatype Pair = Pair(id: int, text: string)

  /** A std::map, in the order in which it is iterated. */
  type LabelMap = seq<Pair>

  predicate Ordered(m: LabelMap) { forall i, j :: 0 <= i < j < |m| ==> m[i].id < m[j].id }

  /** Assignment to a key. */
  function Put(m: LabelMap, p: Pair): LabelMap {
    if m == [] then [p]
    else
      var n := |m| - 1;
      if m[n].id < p.id then m + [p]
      else if m[n].id == p.id then m[..n] + [p]
      else Put(m[..n], p) + [m[n]]
  }

  /** What a key is mapped to; a missing key gets the empty string. */
  function Lookup(m: LabelMap, id: int): string {
    if m == [] then "" else if m[|m| - 1].id == id then m[|m| - 1].text else Lookup(m[..|m| - 1], id)
  }

  // ------------------------------------------------------------- label numbers

  /** The first entry with this text, or the number of entries. */
  function Position(m: LabelMap, text: string): (r: nat)
    ensures r <= |m|
  {
    if m == [] then 0
    else
      var r := Position(m[..|m| - 1], text);
      if r < |m| - 1 || m[|m| - 1].text == text then r else r + 1
  }

  /** The map and the number after a request for the number of a label. */
  function Request(m: LabelMap, text: string): (LabelMap, int) {
    var i := Position(m, text);
    if i < |m| then (m, m[i].id) else (Put(m, Pair(|m|, text)), |m|)
  }

  function Requests(m: LabelMap, texts: seq<string>): LabelMap {
    if texts == [] then m else Request(Requests(m, texts[..|texts| - 1]), texts[|texts| - 1]).0
  }

  /** The numbers are 0, 1, 2 and so on, and no label has two. */
  predicate Numbered(m: LabelMap) {
    && (forall i :: 0 <= i < |m| ==> m[i].id == i)
    && forall i, j :: 0 <= i < j < |m| ==> m[i].text != m[j].text
  }

  lemma {:induction false} PositionIs(m: LabelMap, text: string)
    ensures Position(m, text) < |m| ==> m[Position(m, text)].text == text
    ensures forall k :: 0 <= k < Position(m, text) ==> m[k].text != text
  {
    if m != [] { PositionIs(m[..|m| - 1], text); }
  }

  /** One request on a numbered map: the map stays numbered, only grows at the end, and the
      label's number is the place where the label now is. */
  lemma RequestKeeps(m: LabelMap, text: string)
    requires Numbered(m)
    ensures var (n, id) := Request(m, text);
            Numbered(n) && m <= n && 0 <= id < |n| && n[id] == Pair(id, text) && (|n| == |m| <==> exists k :: 0 <= k < |m| && m[k].text == text)
  {
    PositionIs(m, text);
    var i := Position(m, text);
    if i < |m| {
      assert m[i].text == text;
    } else {
      assert Put(m, Pair(|m|, text)) == m + [Pair(|m|, text)];
    }
  }

  lemma {:induction false} RequestsKeep(m: LabelMap, texts: seq<string>)
    requires Numbered(m)
    ensures Numbered(Requests(m, texts)) && m <= Requests(m, texts)
  {
    if texts != [] {
      var before := texts[..|texts| - 1];
      RequestsKeep(m, before);
      RequestKeeps(Requests(m, before), texts[|texts| - 1]);
    }
  }

  lemma {:induction false} RequestsJoin(m: LabelMap, a: seq<string>, b: seq<string>)
    ensures Requests(m, a + b) == Requests(Requests(m, a), b)
    decreases |b|
  {
    if b == [] {
      ConcatEmpty(a);
    } else {
      var front := b[..|b| - 1];
      RequestsJoin(m, a, front);
      assert (a + b)[..|a + b| - 1] == a + front;
    }
  }

  /** From an empty map, whatever is requested: the numbers are exactly 0 to n-1, no two for one
      label, and a label that was given a number gets the same number and no other for ever,
      and is what that number stands for. */
  lemma AnswersAreStable(before: seq<string>, text: string, later: seq<string>)
    ensures var m := Requests([], before + [text] + later);
            var id := Request(Requests([], before), text).1;
            && Numbered(m)
            && Request(m, text) == (m, id)
            && Lookup(m, id) == text
  {
    var asked := Requests([], before);
    var (answered, id) := Request(asked, text);
    RequestsKeep([], before);
    RequestKeeps(asked, text);
    assert (before + [text])[..|before|] == before;
    assert Requests([], before + [text]) == answered;
    RequestsJoin([], before + [text], later);
    RequestsKeep(answered, later);
    var m := Requests(answered, later);
    assert m[id] == answered[id];
    PositionIs(m, text);
    LookupAt(m, id);
  }

  lemma {:induction false} LookupAt(m: LabelMap, i: nat)
    requires Ordered(m) && i < |m|
    ensures Lookup(m, m[i].id) == m[i].text
  {
    if i < |m| - 1 { LookupAt(m[..|m| - 1], i); }
  }

  // ---------------------------------------------------------------- the text file

  const LONG_MAX: int := 0x7FFF_FFFF_FFFF_FFFF
  const LONG_MIN: int := -LONG_MAX - 1

  predicate IsSpace(c: char) { c == ' ' || 9 <= c as int <= 13 }

  predicate IsDigit(c: char) { '0' <= c <= '9' }

  function Digits(n: nat): string {
    if n < 10 then [(n + '0' as int) as char] else Digits(n / 10) + [(n % 10 + '0' as int) as char]
  }

  function Decimal(n: int): string { if n < 0 then "-" + Digits(-n) else Digits(n) }

  function Line(p: Pair): string { Decimal(p.id) + " " + p.text }

  /** The file that write_labels_map produces. */
  function Save(m: LabelMap): string {
    if m == [] then "" else Save(m[..|m| - 1]) + (Line(m[|m| - 1]) + "\n")
  }

  /** The lines that getline takes from a text, `line` being the start of the first one. */
  function Lines(text: string, line: string): seq<string>
    decreases |text|
  {
    if text == "" then (if line == "" then [] else [line])
    else if text[0] == '\n' then [line] + Lines(text[1..], "")
    else Lines(text[1..], line + [text[0]])
  }

  function NonSpace(s: string, i: nat): (r: nat)
    requires i <= |s|
    ensures i <= r <= |s| && (r < |s| ==> !IsSpace(s[r]))
    decreases |s| - i
  {
    if i < |s| && IsSpace(s[i]) then NonSpace(s, i + 1) else i
  }

  function Space(s: string, i: nat): (r: nat)
    requires i <= |s|
    ensures i <= r <= |s| && (r < |s| ==> IsSpace(s[r]))
    decreases |s| - i
  {
    if i < |s| && !IsSpace(s[i]) then Space(s, i + 1) else i
  }

  function NonDigit(s: string, i: nat): (r: nat)
    requires i <= |s|
    ensures i <= r <= |s| && (r < |s| ==> !IsDigit(s[r]))
    decreases |s| - i
  {
    if i < |s| && IsDigit(s[i]) then NonDigit(s, i + 1) else i
  }

  function Value(s: string): int {
    if s == "" then 0 else Value(s[..|s| - 1]) * 10 + (s[|s| - 1] as int - '0' as int)
  }

  /** A number extracted from a stream: its value and where it ends, or the value that a failed
      extraction stores. */
  datatype Number = Read(value: int, end: nat) | Unread(value: int)

  /** Extraction of a long. On a line without anything but space nothing is stored: the
      variable keeps what it held, `junk`. */
  function ExtractLong(s: string, junk: int): (r: Number)
    ensures r.Read? ==> r.end <= |s|
  {
    var b := NonSpace(s, 0);
    if b == |s| then Unread(junk)
    else
      var d := if s[b] == '-' || s[b] == '+' then b + 1 else b;
      var e := NonDigit(s, d);
      var v := if s[b] == '-' then -Value(s[d..e]) else Value(s[d..e]);
      if e == d then Unread(0)
      else if v > LONG_MAX then Unread(LONG_MAX)
      else if v < LONG_MIN then Unread(LONG_MIN)
      else Read(v, e)
  }

  /** The entry read from a line. A text that cannot be extracted stays the whole line. */
  function Parse(line: string, junk: int): Pair {
    var n := ExtractLong(line, junk);
    if n.Unread? then Pair(n.value, line)
    else
      var b := NonSpace(line, n.end);
      Pair(n.value, if b == |line| then line else line[b..Space(line, b)])
  }

  function ParseAll(lines: seq<string>, junk: int): LabelMap {
    if lines == [] then [] else Put(ParseAll(lines[..|lines| - 1], junk), Parse(lines[|lines| - 1], junk))
  }

  /** The map that read_labels_map makes of a file. */
  function Load(file: string, junk: int): LabelMap { ParseAll(Lines(file, ""), junk) }

  // ------------------------------------------------------------------ single lines

  /** A label that one extraction takes whole. */
  predicate Token(text: string) { text != "" && forall i :: 0 <= i < |text| ==> !IsSpace(text[i]) }

  predicate AllDigits(s: string) { forall i :: 0 <= i < |s| ==> IsDigit(s[i]) }

  lemma {:induction false} DigitsBack(n: nat)
    ensures Digits(n) != "" && AllDigits(Digits(n)) && Value(Digits(n)) == n
  {
    if n >= 10 {
      DigitsBack(n / 10);
      var s := Digits(n);
      assert s[..|s| - 1] == Digits(n / 10);
    } else {
      assert Digits(n)[..0] == "";
    }
  }

  lemma {:induction false} NonDigitIs(s: string, i: nat, j: nat)
    requires i <= j < |s| && !IsDigit(s[j]) && forall k :: i <= k < j ==> IsDigit(s[k])
    ensures NonDigit(s, i) == j
    decreases j - i
  {
    if i < j { NonDigitIs(s, i + 1, j); }
  }

  lemma {:induction false} SpaceIs(s: string, i: nat)
    requires i <= |s| && forall k :: i <= k < |s| ==> !IsSpace(s[k])
    ensures Space(s, i) == |s|
    decreases |s| - i
  {
    if i < |s| { SpaceIs(s, i + 1); }
  }

  lemma {:induction false} SpaceBetween(s: string, i: nat)
    requires i <= |s|
    ensures forall k :: i <= k < Space(s, i) ==> !IsSpace(s[k])
    decreases |s| - i
  {
    if i < |s| && !IsSpace(s[i]) { SpaceBetween(s, i + 1); }
  }

  predicate IsLong(n: int) { -9223372036854775808 <= n <= 9223372036854775807 }

  lemma NumberBack(p: Pair, junk: int)
    requires IsLong(p.id)
    ensures ExtractLong(Line(p), junk) == Read(p.id, |Decimal(p.id)|)
  {
    var s := Line(p);
    var digits := Digits(if p.id < 0 then -p.id else p.id);
    var d := if p.id < 0 then 1 else 0;
    DigitsBack(if p.id < 0 then -p.id else p.id);
    DigitsSpan(s, d, digits);
  }

  lemma DigitsSpan(s: string, d: nat, digits: string)
    requires AllDigits(digits) && d + |digits| < |s| && s[d..d + |digits|] == digits && s[d + |digits|] == ' '
    ensures NonDigit(s, d) == d + |digits|
  {
    forall k | d <= k < d + |digits| ensures IsDigit(s[k]) {
      assert s[k] == digits[k - d];
    }
    NonDigitIs(s, d, d + |digits|);
  }

  lemma TokenBack(s: string, e: nat, text: string)
    requires e < |s| && s[e] == ' ' && s[e + 1..] == text && Token(text)
    ensures NonSpace(s, e) == e + 1 < |s| && Space(s, e + 1) == |s|
  {
    forall k | e + 1 <= k < |s| ensures !IsSpace(s[k]) {
      assert s[k] == text[k - e - 1];
    }
    SpaceIs(s, e + 1);
  }

  /** A line gives back its number always, and its label exactly if the label is a token. */
  lemma LineBack(p: Pair, junk: int)
    requires IsLong(p.id)
    ensures Parse(Line(p), junk) == p <==> Token(p.text)
    ensures Parse(Line(p), junk).id == p.id
  {
    var s := Line(p);
    var e := |Decimal(p.id)|;
    NumberBack(p, junk);
    assert s[e] == ' ' && s[e + 1..] == p.text;
    var b := NonSpace(s, e);
    if Token(p.text) {
      TokenBack(s, e, p.text);
      assert s[e + 1..|s|] == p.text;
    } else if b < |s| {
      TokenIs(s, b);
    }
  }

  lemma TokenIs(s: string, b: nat)
    requires b < |s| && !IsSpace(s[b])
    ensures Token(s[b..Space(s, b)])
  {
    SpaceBetween(s, b);
  }

  lemma {:induction false} NonSpaceIs(s: string, i: nat)
    requires i <= |s| && forall k :: i <= k < |s| ==> IsSpace(s[k])
    ensures NonSpace(s, i) == |s|
    decreases |s| - i
  {
    if i < |s| { NonSpaceIs(s, i + 1); }
  }

  /** What becomes of lines that no map was saved to: on a line of white space the number is left
      over, on one that starts with anything but white space, a digit or a sign it is 0, and in
      both cases the whole line is the label. */
  lemma OddLine(line: string, junk: int)
    ensures (forall k :: 0 <= k < |line| ==> line[k] == ' ' || '\t' <= line[k] <= '\r') ==> Parse(line, junk) == Pair(junk, line)
    ensures line != "" && !(line[0] == ' ' || '\t' <= line[0] <= '\r' || '0' <= line[0] <= '9' || line[0] == '-' || line[0] == '+') ==>
              Parse(line, junk) == Pair(0, line)
  {
    if forall k :: 0 <= k < |line| ==> IsSpace(line[k]) { NonSpaceIs(line, 0); }
  }

  /** A number that no long can hold becomes the nearest one, and the whole line the label. */
  lemma HugeNumber(p: Pair, junk: int)
    requires p.id > 9223372036854775807 || p.id < -9223372036854775808
    ensures Parse(Line(p), junk) == Pair(if p.id > 0 then 9223372036854775807 else -9223372036854775808, Line(p))
  {
    var s := Line(p);
    var digits := Digits(if p.id < 0 then -p.id else p.id);
    var d := if p.id < 0 then 1 else 0;
    DigitsBack(if p.id < 0 then -p.id else p.id);
    DigitsSpan(s, d, digits);
  }

  /** Assignment to a key: the entry is in the map, the other entries are those of other keys,
      and the order is kept. */
  lemma {:induction false} PutIs(m: LabelMap, p: Pair)
    requires Ordered(m)
    ensures Ordered(Put(m, p))
    ensures forall q :: q in Put(m, p) <==> q == p || (q in m && q.id != p.id)
  {
    if m != [] {
      var n := |m| - 1;
      assert m == m[..n] + [m[n]];
      if m[n].id > p.id {
        PutIs(m[..n], p);
        forall i | 0 <= i < |Put(m[..n], p)| ensures Put(m[..n], p)[i].id < m[n].id {
          assert Put(m[..n], p)[i] in Put(m[..n], p);
        }
      }
    }
  }

  // ------------------------------------------------------------------- whole files

  lemma {:induction false} LinesRun(a: string, rest: string, line: string)
    requires '\n' !in a
    ensures Lines(a + rest, line) == Lines(rest, line + a)
    decreases |a|
  {
    if a == "" {
      ConcatEmpty(rest);
      ConcatEmpty(line);
    } else {
      LinesRun(a[1..], rest, line + [a[0]]);
      assert (a + rest)[1..] == a[1..] + rest;
      ConcatAssociates(line, [a[0]], a[1..]);
      assert a == [a[0]] + a[1..];
    }
  }

  /** Complete lines are independent of what follows. */
  lemma {:induction false} LinesJoin(a: string, rest: string, line: string)
    requires a != "" && a[|a| - 1] == '\n'
    ensures Lines(a + rest, line) == Lines(a, line) + Lines(rest, "")
    decreases |a|
  {
    assert (a + rest)[1..] == a[1..] + rest;
    if a[1..] == "" {
      ConcatEmpty(rest);
      ConcatEmpty([line]);
    } else if a[0] == '\n' {
      LinesJoin(a[1..], rest, "");
      ConcatAssociates([line], Lines(a[1..], ""), Lines(rest, ""));
    } else {
      LinesJoin(a[1..], rest, line + [a[0]]);
    }
  }

  function LinesOf(m: LabelMap): seq<string> {
    if m == [] then [] else LinesOf(m[..|m| - 1]) + [Line(m[|m| - 1])]
  }

  predicate Flat(m: LabelMap) { forall i :: 0 <= i < |m| ==> '\n' !in m[i].text }

  lemma {:induction false} DecimalFlat(n: nat)
    ensures '\n' !in Digits(n) && '\n' !in ("-" + Digits(n))
  {
    DigitsBack(n);
    assert forall i :: 0 <= i < |Digits(n)| ==> IsDigit(Digits(n)[i]);
  }

  lemma OneLine(p: Pair)
    requires '\n' !in p.text
    ensures '\n' !in Line(p) && Lines(Line(p) + "\n", "") == [Line(p)]
  {
    DecimalFlat(if p.id < 0 then -p.id else p.id);
    LinesRun(Line(p), "\n", "");
    ConcatEmpty(Line(p));
    assert "\n"[1..] == "";
  }

  /** Without line breaks in the labels every entry is one line of the file. */
  lemma {:induction false} SavedLines(m: LabelMap)
    requires Flat(m)
    ensures Lines(Save(m), "") == LinesOf(m)
    ensures m != [] ==> Save(m) != "" && Save(m)[|Save(m)| - 1] == '\n'
  {
    if m != [] {
      var front := m[..|m| - 1];
      var last := m[|m| - 1];
      SavedLines(front);
      OneLine(last);
      if front == [] {
        ConcatEmpty(Line(last) + "\n");
        ConcatEmpty([Line(last)]);
      } else {
        LinesJoin(Save(front), Line(last) + "\n", "");
      }
    }
  }

  predicate Longs(m: LabelMap) { forall i :: 0 <= i < |m| ==> IsLong(m[i].id) }

  /** What each entry's own line gives. */
  function Parsed(m: LabelMap, junk: int): LabelMap {
    if m == [] then [] else Parsed(m[..|m| - 1], junk) + [Parse(Line(m[|m| - 1]), junk)]
  }

  /** Loading the lines of an ordered map gives its numbers in order, each with what its own
      line gives. */
  lemma {:induction false} LoadedLines(m: LabelMap, junk: int)
    requires Ordered(m) && Longs(m)
    ensures ParseAll(LinesOf(m), junk) == Parsed(m, junk) && |Parsed(m, junk)| == |m|
    ensures m != [] ==> Parsed(m, junk)[|m| - 1].id == m[|m| - 1].id
  {
    if m != [] {
      LoadedLines(m[..|m| - 1], junk);
      LineBack(m[|m| - 1], junk);
      assert LinesOf(m)[..|LinesOf(m)| - 1] == LinesOf(m[..|m| - 1]);
    }
  }

  predicate Tokens(m: LabelMap) { forall i :: 0 <= i < |m| ==> Token(m[i].text) }

  lemma {:induction false} ParsedIs(m: LabelMap, junk: int)
    requires Longs(m)
    ensures Parsed(m, junk) == m <==> Tokens(m)
  {
    if m != [] {
      var front := m[..|m| - 1];
      var last := m[|m| - 1];
      ParsedIs(front, junk);
      LineBack(last, junk);
      PrefixStep(m, |m| - 1);
      PrefixAll(m);
      SnocEqual(Parsed(front, junk), Parse(Line(last), junk), front, last);
      TokensStep(m);
    }
  }

  lemma SnocEqual<T>(a: seq<T>, x: T, b: seq<T>, y: T)
    ensures a + [x] == b + [y] <==> a == b && x == y
  {
    assert (a + [x])[..|a|] == a && (b + [y])[..|b|] == b;
    if a + [x] == b + [y] {
      assert |a| == |b| && (a + [x])[|a|] == (b + [y])[|b|];
    }
  }

  lemma TokensStep(m: LabelMap)
    requires m != []
    ensures Tokens(m) <==> Tokens(m[..|m| - 1]) && Token(m[|m| - 1].text)
  {
    if Tokens(m[..|m| - 1]) && Token(m[|m| - 1].text) {
      forall i | 0 <= i < |m| ensures Token(m[i].text) {
        if i < |m| - 1 { assert m[..|m| - 1][i] == m[i]; }
      }
    }
  }

  predicate FlatLines(lines: seq<string>) { forall i :: 0 <= i < |lines| ==> '\n' !in lines[i] }

  lemma {:induction false} LinesFlat(text: string, line: string)
    requires '\n' !in line
    ensures FlatLines(Lines(text, line))
    decreases |text|
  {
    if text != "" {
      if text[0] == '\n' { LinesFlat(text[1..], ""); } else { LinesFlat(text[1..], line + [text[0]]); }
    }
  }

  lemma {:induction false} PutFlat(m: LabelMap, p: Pair)
    requires Flat(m) && '\n' !in p.text
    ensures Flat(Put(m, p))
  {
    if m != [] { PutFlat(m[..|m| - 1], p); }
  }

  lemma {:induction false} ParsedFlat(lines: seq<string>, junk: int)
    requires FlatLines(lines)
    ensures Flat(ParseAll(lines, junk))
  {
    if lines != [] {
      ParsedFlat(lines[..|lines| - 1], junk);
      PutFlat(ParseAll(lines[..|lines| - 1], junk), Parse(lines[|lines| - 1], junk));
    }
  }

  /** Saving and loading gives back the map exactly if every label is a token, that is, not
      empty and without white space. */
  lemma SaveLoad(m: LabelMap, junk: int)
    requires Ordered(m) && Longs(m)
    ensures Load(Save(m), junk) == m <==> Tokens(m)
  {
    if Flat(m) {
      FlatSaveLoad(m, junk);
    } else {
      LinesFlat(Save(m), "");
      ParsedFlat(Lines(Save(m), ""), junk);
      var i :| 0 <= i < |m| && '\n' in m[i].text;
      assert !Token(m[i].text);
    }
  }

  lemma FlatSaveLoad(m: LabelMap, junk: int)
    requires Ordered(m) && Longs(m) && Flat(m)
    ensures Load(Save(m), junk) == m <==> Tokens(m)
  {
    SavedLines(m);
    LoadedLines(m, junk);
    ParsedIs(m, junk);
  }

  /** The text of a saved map: one line for each entry, in order. */
  lemma SavedText(m: LabelMap, p: Pair)
    ensures Save([]) == "" && Save(m + [p]) == Save(m) + (Line(p) + "\n")
  {
    assert (m + [p])[..|m|] == m;
  }

  /** The text of a line, on a negative number and on one of two digits. */
  lemma LineText()
    ensures Line(Pair(-12, "a")) == "-12 a"
    ensures Line(Pair(10, "bus")) == "10 bus"
  {
    assert Digits(1) == "1";
    assert Digits(12) == Digits(1) + "2";
    assert Digits(10) == Digits(1) + "0";
  }

  /** Label numbers survive saving and loading, if the labels are tokens. */
  lemma NumbersSurvive(texts: seq<string>, junk: int)
    requires |texts| <= LONG_MAX && forall i :: 0 <= i < |texts| ==> Token(texts[i])
    ensures var m := Requests([], texts); Load(Save(m), junk) == m
  {
    var m := Requests([], texts);
    RequestsKeep([], texts);
    RequestedTexts(texts);
    SaveLoad(m, junk);
  }

  lemma {:induction false} RequestedTexts(texts: seq<string>)
    ensures |Requests([], texts)| <= |texts|
    ensures forall p :: p in Requests([], texts) ==> p.text in texts
  {
    if texts != [] {
      var front := texts[..|texts| - 1];
      RequestedTexts(front);
      RequestsKeep([], front);
      RequestKeeps(Requests([], front), texts[|texts| - 1]);
      var m := Requests([], front);
      assert Put(m, Pair(|m|, texts[|texts| - 1])) == m + [Pair(|m|, texts[|texts| - 1])];
    }
  }

  // ---------------------------------------------------------------- implementation

  /** The label map as the descriptor set holds it. */
  class LabelData {
    var labels: LabelMap

    constructor ()
      ensures labels == []
    {
      labels := [];
    }

    /** The number of a label, given out if it has none. */
    method GetLabelId(text: string) returns (id: int)
      modifies this
      ensures (labels, id) == Request(old(labels), text)
    {
      var i := 0;
      while i < |labels|
        invariant 0 <= i <= |labels|
        invariant forall k :: 0 <= k < i ==> labels[k].text != text
        invariant labels == old(labels)
      {
        if labels[i].text == text {
          PositionFound(labels, text, i);
          return labels[i].id;
        }
        i := i + 1;
      }
      PositionIs(labels, text);
      id := |labels|;
      labels := Put(labels, Pair(id, text));
    }

    method WriteLabelsMap() returns (file: string)
      ensures file == Save(labels)
    {
      file := "";
      for i := 0 to |labels|
        invariant file == Save(labels[..i])
      {
        assert labels[..i + 1][..i] == labels[..i];
        file := file + (Line(labels[i]) + "\n");
      }
      PrefixAll(labels);
    }

    method ReadLabelsMap(file: string, junk: int)
      modifies this
      ensures labels == Load(file, junk)
    {
      labels := [];
      var lines := Lines(file, "");
      for i := 0 to |lines|
        invariant labels == ParseAll(lines[..i], junk)
      {
        assert lines[..i + 1][..i] == lines[..i];
        labels := Put(labels, Parse(lines[i], junk));
      }
      PrefixAll(lines);
    }
  }

  lemma {:induction false} PositionFound(m: LabelMap, text: string, i: nat)
    requires i < |m| && m[i].text == text && forall k :: 0 <= k < i ==> m[k].text != text
    ensures Position(m, text) == i
  {
    PositionIs(m[..|m| - 1], text);
    if i < |m| - 1 { PositionFound(m[..|m| - 1], text, i); }
  }
}
