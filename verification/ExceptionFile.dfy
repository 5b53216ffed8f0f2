/** The exception-list parser: tools/check_pnpm_audit_exceptions.py, split_kv and parse_exceptions. */
module ExceptionFile {
  import opened Wrappers
  import opened PyText

  type Record = map<string, string>

  /** split_kv: key and unquoted value around the first colon; None models the ValueError
      raised when there is no colon. */
  function SplitKv(line: string): (kv: Option<(string, string)>)
    ensures kv.Some? <==> ':' in line
  {
    var i := IndexOf(line, ':');
    if i == |line| then None
    else
      var value := Strip(line[i + 1..]);
      var quoted := Wrapped(value, '\"') || Wrapped(value, '\'');
      Some((Strip(line[..i]), if quoted then Middle(value) else value))
  }

  /** value.startswith(q) and value.endswith(q) */
  predicate Wrapped(value: string, q: char) {
    value != "" && value[0] == q && value[|value| - 1] == q
  }

  /** value[1:-1], which is empty for a one-character value. */
  function Middle(value: string): string
    requires value != ""
  {
    if |value| == 1 then "" else value[1..|value| - 1]
  }

  /** The parser, line by line as written. None models the uncaught ValueError. */
  method ParseExceptions(lines: seq<string>) returns (r: Option<seq<Record>>)
    ensures r.None? <==> exists i :: 0 <= i < |lines| && Classify(lines[i]).BadItem?
    ensures r.Some? ==> r.value == Records(ClassifyAll(lines))
  {
    hide SplitKv, Strip, IsHeader, IsComment;
    var exceptions: seq<Record> := [];
    var current: Option<Record> := None;
    ghost var all := ClassifyAll(lines);
    assert all[0..] == all;
    for i := 0 to |lines|
      invariant forall j :: 0 <= j < i ==> !Classify(lines[j]).BadItem?
      invariant current.Some? ==> current.value != map[]
      invariant exceptions + Continue(current, all[i..]) == Records(all)
    {
      assert all[i..][0] == Classify(lines[i]) && all[i..][1..] == all[i + 1..];
      BadItemExactly(lines[i]);
      var line := Strip(lines[i]);
      if line == "" || IsComment(line) {
        continue;
      }
      if IsHeader(line) {
        continue;
      }
      if IsItem(line) {
        ItemHasText(line);
        if current.Some? && current.value != map[] {
          exceptions := exceptions + [current.value];
        }
        current := Some(map[]);
        line := Strip(line[2..]);
        if line != "" {
          var kv := SplitKv(line);
          if kv.None? {
            return None;
          }
          current := Some(map[kv.value.0 := kv.value.1]);
          assert kv.value.0 in current.value;
        }
        continue;
      }
      if current.Some? && ':' in line {
        var kv := SplitKv(line);
        current := Some(current.value[kv.value.0 := kv.value.1]);
        assert kv.value.0 in current.value;
      }
    }
    assert all[|lines|..] == [];
    if current.Some? && current.value != map[] {
      exceptions := exceptions + [current.value];
    }
    return Some(exceptions);
  }

  // ----- what a file means, block by block -----

  /** What one raw line says. */
  datatype Line = Skip | Item(key: string, value: string) | BadItem | Pair(key: string, value: string)

  /** line.startswith("#") */
  predicate IsComment(line: string) {
    line != "" && line[0] == '#'
  }

  /** line.startswith("- ") */
  predicate IsItem(line: string) {
    |line| >= 2 && line[0] == '-' && line[1] == ' '
  }

  /** line.startswith("version:") or line.startswith("exceptions:") */
  predicate IsHeader(line: string) {
    StartsWith(line, "version:") || StartsWith(line, "exceptions:")
  }

  predicate StartsWith(line: string, word: string) {
    |word| <= |line| && line[..|word|] == word
  }

  lemma ItemIsNoHeader(line: string)
    requires IsItem(line)
    ensures !IsHeader(line) && !IsComment(line)
  {
    assert "version:"[0] == 'v' && "exceptions:"[0] == 'e';
    assert forall n :: 0 < n <= |line| ==> line[..n][0] == '-';
  }

  function Classify(raw: string): Line {
    var line := Strip(raw);
    if line == "" || IsComment(line) || IsHeader(line) then Skip
    else if IsItem(line) then
      (match SplitKv(Strip(line[2..]))
       case None => BadItem
       case Some((k, v)) => Item(k, v))
    else
      (match SplitKv(line)
       case None => Skip
       case Some((k, v)) => Pair(k, v))
  }

  function ClassifyAll(lines: seq<string>): (ls: seq<Line>)
    ensures |ls| == |lines|
    ensures forall i :: 0 <= i < |lines| ==> ls[i] == Classify(lines[i])
  {
    seq(|lines|, i requires 0 <= i < |lines| => Classify(lines[i]))
  }

  /** The records of a file: each item line opens one, and the pairs up to the next item line fill it. */
  function Records(ls: seq<Line>): seq<Record> {
    if ls == [] then []
    else if ls[0].Item? then [Fill(map[ls[0].key := ls[0].value], ls[1..])] + Records(ls[1..])
    else Records(ls[1..])
  }

  /** m extended by the pairs in front of the next item line. */
  function Fill(m: Record, ls: seq<Line>): (r: Record)
    ensures m.Keys <= r.Keys
    decreases |ls|
  {
    if ls == [] || ls[0].Item? then m
    else if ls[0].Pair? then Fill(m[ls[0].key := ls[0].value], ls[1..])
    else Fill(m, ls[1..])
  }

  /** What a file parses to: nothing if a line raises. */
  function Parsed(lines: seq<string>): Option<seq<Record>> {
    if exists i :: 0 <= i < |lines| && Classify(lines[i]).BadItem? then None else Some(Records(ClassifyAll(lines)))
  }

  ghost function Continue(current: Option<Record>, ls: seq<Line>): seq<Record> {
    if current.Some? then [Fill(current.value, ls)] + Records(ls) else Records(ls)
  }

  /** A stripped line that starts an item still has text after the dash, so the emptiness tests
      of the parser never drop an item. */
  lemma ItemHasText(line: string)
    requires IsItem(line) && Trimmed(line)
    ensures Strip(line[2..]) != ""
    ensures ':' in Strip(line[2..]) <==> ':' in line
  {
    hide Strip;
    var rest, last := line[2..], line[|line| - 1];
    assert line == line[..2] + rest && ':' !in line[..2];
    assert |line| > 2 && last == rest[|rest| - 1];
    StripKeeps(rest, last);
    StripKeeps(rest, ':');
  }

  /** A line raises exactly when its stripped text opens an item and holds no colon. */
  lemma BadItemExactly(raw: string)
    ensures Classify(raw).BadItem? <==> IsItem(Strip(raw)) && ':' !in Strip(raw)
    ensures Classify(raw).Item? <==> IsItem(Strip(raw)) && ':' in Strip(raw)
  {
    hide Strip, IsHeader, IsComment, SplitKv;
    if IsItem(Strip(raw)) {
      ItemIsNoHeader(Strip(raw));
      ItemHasText(Strip(raw));
    }
  }

  function CountItems(lines: seq<string>): nat {
    if lines == [] then 0
    else (if IsItem(Strip(lines[0])) then 1 else 0) + CountItems(lines[1..])
  }

  /** Conservation: in a file that parses, every item line yields exactly one record. */
  lemma {:induction false} ItemsConserved(lines: seq<string>)
    requires forall i :: 0 <= i < |lines| ==> !Classify(lines[i]).BadItem?
    ensures |Records(ClassifyAll(lines))| == CountItems(lines)
  {
    hide Classify, Strip;
    if lines != [] {
      BadItemExactly(lines[0]);
      assert ClassifyAll(lines)[1..] == ClassifyAll(lines[1..]);
      ItemsConserved(lines[1..]);
    }
  }

  // ----- concatenation -----

  lemma {:induction false} FillStopsAtItem(m: Record, a: seq<Line>, b: seq<Line>)
    requires b != [] && b[0].Item?
    ensures Fill(m, a + b) == Fill(m, a)
    decreases |a|
  {
    if a == [] {
      assert a + b == b;
    } else {
      assert (a + b)[0] == a[0] && (a + b)[1..] == a[1..] + b;
      if a[0].Pair? {
        FillStopsAtItem(m[a[0].key := a[0].value], a[1..], b);
      } else {
        FillStopsAtItem(m, a[1..], b);
      }
    }
  }

  /** Parsing A followed by B is parse(A) followed by parse(B) when B opens with an item line. */
  lemma {:induction false} RecordsConcat(a: seq<Line>, b: seq<Line>)
    requires b != [] ==> b[0].Item?
    ensures Records(a + b) == Records(a) + Records(b)
  {
    if b == [] {
      assert a + b == a;
    } else if a == [] {
      assert a + b == b;
    } else {
      assert (a + b)[0] == a[0] && (a + b)[1..] == a[1..] + b;
      RecordsConcat(a[1..], b);
      if a[0].Item? {
        FillStopsAtItem(map[a[0].key := a[0].value], a[1..], b);
      }
    }
  }

  lemma LinesConcat(a: seq<string>, b: seq<string>)
    requires b != [] ==> Classify(b[0]).Item?
    ensures Records(ClassifyAll(a + b)) == Records(ClassifyAll(a)) + Records(ClassifyAll(b))
  {
    hide Classify;
    assert ClassifyAll(a + b) == ClassifyAll(a) + ClassifyAll(b);
    RecordsConcat(ClassifyAll(a), ClassifyAll(b));
  }

  /** When B opens with an item line, A followed by B raises if and only if A or B raises, and otherwise
      parses to the records of A followed by those of B. */
  lemma FilesConcat(a: seq<string>, b: seq<string>)
    requires b != [] ==> IsItem(Strip(b[0]))
    ensures Parsed(a + b) ==
            if Parsed(a).None? || Parsed(b).None? then None else Some(Parsed(a).value + Parsed(b).value)
  {
    hide Classify, Records, Strip;
    if b != [] {
      BadItemExactly(b[0]);
    }
    if i :| 0 <= i < |a| && Classify(a[i]).BadItem? {
      assert (a + b)[i] == a[i];
    } else if i :| 0 <= i < |b| && Classify(b[i]).BadItem? {
      assert (a + b)[|a| + i] == b[i];
    } else {
      LinesConcat(a, b);
    }
  }

  // ----- round trip -----

  type Entry = (string, string)

  function PrintPair(e: Entry): (text: string)
    ensures text != ""
  {
    e.0 + ": \"" + e.1 + "\""
  }

  function PrintPairs(es: seq<Entry>): (lines: seq<string>)
    ensures |lines| == |es|
    ensures forall i :: 0 <= i < |es| ==> lines[i] == "    " + PrintPair(es[i])
  {
    seq(|es|, i requires 0 <= i < |es| => "    " + PrintPair(es[i]))
  }

  function PrintRecord(es: seq<Entry>): seq<string>
    requires |es| > 0
  {
    ["  - " + PrintPair(es[0])] + PrintPairs(es[1..])
  }

  function PrintRecords(rs: seq<seq<Entry>>): seq<string>
    requires forall i :: 0 <= i < |rs| ==> |rs[i]| > 0
  {
    if rs == [] then [] else PrintRecord(rs[0]) + PrintRecords(rs[1..])
  }

  function PrintFile(rs: seq<seq<Entry>>): seq<string>
    requires forall i :: 0 <= i < |rs| ==> |rs[i]| > 0
  {
    ["version: 1", "exceptions:"] + PrintRecords(rs)
  }

  /** A key that survives split_kv. */
  predicate LegalKey(k: string) {
    Trimmed(k) && ':' !in k
  }

  /** A key that the parser does not mistake for something else at the start of a line. */
  predicate Reserved(k: string) {
    k == "version" || k == "exceptions" || IsComment(k) || IsItem(k)
  }

  ghost predicate AllLegal(rs: seq<seq<Entry>>) {
    forall i :: 0 <= i < |rs| ==> |rs[i]| > 0 && LegalRecord(rs[i])
  }

  predicate LegalRecord(es: seq<Entry>) {
    |es| > 0 && LegalKey(es[0].0) &&
    forall i :: 1 <= i < |es| ==> LegalKey(es[i].0) && !Reserved(es[i].0)
  }

  function ToMap(m: Record, es: seq<Entry>): Record
    decreases |es|
  {
    if es == [] then m else ToMap(m[es[0].0 := es[0].1], es[1..])
  }

  function ToMaps(rs: seq<seq<Entry>>): seq<Record> {
    if rs == [] then [] else [ToMap(map[], rs[0])] + ToMaps(rs[1..])
  }

  /** split_kv on a text given in parts. */
  lemma SplitAtColon(k: string, tail: string)
    requires ':' !in k
    ensures SplitKv(k + ":" + tail) ==
            var value := Strip(tail);
            Some((Strip(k), if Wrapped(value, '\"') || Wrapped(value, '\'') then Middle(value) else value))
  {
    var text, n := k + ":" + tail, |k|;
    assert text[n] == ':' && text[..n] == k && text[n + 1..] == tail;
    IndexOfAt(text, ':', n);
  }

  /** One pair of matching quotes, double or single, is dropped from a value. */
  lemma QuotedValue(k: string, v: string, q: char)
    requires ':' !in k && (q == '\"' || q == '\'')
    ensures SplitKv(k + ":" + " " + [q] + v + [q]) == Some((Strip(k), v))
  {
    hide SplitKv, Strip;
    var quoted := [q] + v + [q];
    assert k + ":" + " " + [q] + v + [q] == k + ":" + (" " + quoted);
    SplitAtColon(k, " " + quoted);
    assert quoted[0] == q && quoted[|quoted| - 1] == q && Middle(quoted) == v;
    StripLeading(" ", quoted);
  }

  /** A value that does not begin and end with the same kind of quote stays as it is. */
  lemma PlainValue(k: string, v: string)
    requires ':' !in k && v != "" && Trimmed(v)
    requires !(v[0] == v[|v| - 1] && (v[0] == '\"' || v[0] == '\''))
    ensures SplitKv(k + ":" + " " + v) == Some((Strip(k), v))
  {
    hide SplitKv, Strip;
    assert k + ":" + " " + v == k + ":" + (" " + v);
    SplitAtColon(k, " " + v);
    StripLeading(" ", v);
  }

  /** Blank lines and comments say nothing, whatever white space is around them. */
  lemma CommentSkipped(raw: string)
    requires Strip(raw) == "" || Strip(raw)[0] == '#'
    ensures Classify(raw) == Skip
  {
  }

  lemma SplitPrinted(e: Entry)
    requires LegalKey(e.0)
    ensures SplitKv(PrintPair(e)) == Some(e)
  {
    hide SplitKv, Strip;
    var quoted := "\"" + e.1 + "\"";
    assert PrintPair(e) == e.0 + ":" + (" " + quoted);
    SplitAtColon(e.0, " " + quoted);
    assert quoted[0] == '\"' && quoted[|quoted| - 1] == '\"';
    StripLeading(" ", quoted);
    StripTrimmed(e.0);
    assert Middle(quoted) == e.1;
  }

  lemma PrintedIsTrimmed(e: Entry)
    requires LegalKey(e.0)
    ensures Trimmed(PrintPair(e))
  {
    var text := PrintPair(e);
    assert text[0] == if e.0 == "" then ':' else e.0[0];
    assert text[|text| - 1] == '\"';
  }

  lemma PrintedItem(e: Entry)
    requires LegalKey(e.0)
    ensures Classify("  - " + PrintPair(e)) == Item(e.0, e.1)
  {
    hide Strip, SplitKv, PrintPair;
    var text := PrintPair(e);
    var line := "- " + text;
    PrintedIsTrimmed(e);
    assert line[|line| - 1] == text[|text| - 1];
    assert "  - " + text == "  " + line;
    StripLeading("  ", line);
    assert line[2..] == text;
    StripTrimmed(text);
    SplitPrinted(e);
    ItemIsNoHeader(line);
  }

  /** Which first words of a line are taken: a reserved key, and no other legal key. */
  lemma ReservedExactly(e: Entry)
    requires LegalKey(e.0)
    ensures var text := PrintPair(e);
            Reserved(e.0) <==> IsComment(text) || IsHeader(text) || IsItem(text)
  {
    var text, n := PrintPair(e), |e.0|;
    assert text[..n] == e.0 && text[n] == ':';
    PrefixWord("version", e.0, text);
    PrefixWord("exceptions", e.0, text);
    assert "version" + ":" == "version:" && "exceptions" + ":" == "exceptions:";
    assert n > 0 ==> text[0] == e.0[0];
    assert n > 1 ==> text[1] == e.0[1];
  }

  lemma PrefixWord(word: string, k: string, text: string)
    requires ':' !in word && ':' !in k
    requires |k| < |text| && text[..|k|] == k && text[|k|] == ':'
    ensures StartsWith(text, word + ":") <==> k == word
  {
    if k == word {
      assert text[..|k| + 1] == word + ":";
    }
    if StartsWith(text, word + ":") {
      assert text[|word|] == ':' && text[..|word|] == word;
      IndexOfAt(text, ':', |k|);
      IndexOfAt(text, ':', |word|);
    }
  }

  /** The exact set of legal keys: a printed continuation line reads back as its own pair
      if and only if its key is not reserved. */
  lemma PrintedPair(e: Entry)
    requires LegalKey(e.0)
    ensures Classify("    " + PrintPair(e)) == Pair(e.0, e.1) <==> !Reserved(e.0)
  {
    hide Strip, SplitKv, Reserved, PrintPair;
    var text := PrintPair(e);
    PrintedIsTrimmed(e);
    StripLeading("    ", text);
    SplitPrinted(e);
    ReservedExactly(e);
  }

  lemma {:induction false} FillPrinted(m: Record, es: seq<Entry>)
    requires forall i :: 0 <= i < |es| ==> LegalKey(es[i].0) && !Reserved(es[i].0)
    ensures Fill(m, ClassifyAll(PrintPairs(es))) == ToMap(m, es)
    ensures Records(ClassifyAll(PrintPairs(es))) == []
    decreases |es|
  {
    hide Classify;
    if es != [] {
      PrintedPair(es[0]);
      assert ClassifyAll(PrintPairs(es))[1..] == ClassifyAll(PrintPairs(es[1..]));
      FillPrinted(m[es[0].0 := es[0].1], es[1..]);
    }
  }

  lemma RecordPrinted(es: seq<Entry>)
    requires LegalRecord(es)
    ensures Records(ClassifyAll(PrintRecord(es))) == [ToMap(map[], es)]
  {
    hide Classify, Fill;
    PrintedItem(es[0]);
    FillPrinted(map[es[0].0 := es[0].1], es[1..]);
    var tail := ClassifyAll(PrintPairs(es[1..]));
    assert ClassifyAll(PrintRecord(es)) == [Item(es[0].0, es[0].1)] + tail;
    OneRecord(es[0], tail);
    var none: Record := map[];
    assert none[es[0].0 := es[0].1] == map[es[0].0 := es[0].1];
  }

  lemma OneRecord(e: Entry, tail: seq<Line>)
    ensures Records([Item(e.0, e.1)] + tail) == [Fill(map[e.0 := e.1], tail)] + Records(tail)
  {
    assert ([Item(e.0, e.1)] + tail)[1..] == tail;
  }

  lemma {:induction false} RecordsPrinted(rs: seq<seq<Entry>>)
    requires AllLegal(rs)
    ensures Records(ClassifyAll(PrintRecords(rs))) == ToMaps(rs)
    ensures PrintRecords(rs) != [] ==> Classify(PrintRecords(rs)[0]).Item?
  {
    hide Classify;
    if rs != [] {
      RecordsPrinted(rs[1..]);
      RecordPrinted(rs[0]);
      PrintedItem(rs[0][0]);
      LinesConcat(PrintRecord(rs[0]), PrintRecords(rs[1..]));
    }
  }

  lemma RecordReads(es: seq<Entry>)
    requires LegalRecord(es)
    ensures forall n :: 0 <= n < |PrintRecord(es)| ==> !Classify(PrintRecord(es)[n]).BadItem?
  {
    hide Classify;
    forall n | 0 <= n < |PrintRecord(es)| ensures !Classify(PrintRecord(es)[n]).BadItem? {
      if n == 0 {
        PrintedItem(es[0]);
      } else {
        PrintedPair(es[n]);
      }
    }
  }

  lemma {:induction false} RecordsRead(rs: seq<seq<Entry>>)
    requires AllLegal(rs)
    ensures forall n :: 0 <= n < |PrintRecords(rs)| ==> !Classify(PrintRecords(rs)[n]).BadItem?
  {
    hide Classify, PrintRecord;
    if rs != [] {
      RecordReads(rs[0]);
      RecordsRead(rs[1..]);
    }
  }

  /** Round trip: any list of legal records, printed with its header, parses back to itself,
      whatever characters its values hold. */
  lemma FileRoundTrip(rs: seq<seq<Entry>>)
    requires AllLegal(rs)
    ensures Parsed(PrintFile(rs)) == Some(ToMaps(rs))
  {
    hide Classify, PrintRecords, ToMaps, Records;
    var header := ["version: 1", "exceptions:"];
    HeaderSkipped("version:", " 1");
    HeaderSkipped("exceptions:", "");
    assert "version:" + " 1" == header[0] && "exceptions:" + "" == header[1];
    assert ClassifyAll(header) == [Skip, Skip];
    NoRecords();
    RecordsPrinted(rs);
    RecordsRead(rs);
    LinesConcat(header, PrintRecords(rs));
    var file := PrintFile(rs);
    assert Records(ClassifyAll(file)) == [] + ToMaps(rs) == ToMaps(rs);
    forall n | 0 <= n < |file| ensures !Classify(file[n]).BadItem? {
      if n < 2 {
        assert file[n] == header[n] && ClassifyAll(header)[n] == Classify(header[n]);
      } else {
        assert file[n] == PrintRecords(rs)[n - 2];
      }
    }
  }

  lemma NoRecords()
    ensures Records([Skip, Skip]) == []
  {
    assert [Skip, Skip][1..] == [Skip];
  }

  lemma HeaderSkipped(word: string, rest: string)
    requires word == "version:" || word == "exceptions:"
    requires Trimmed(word + rest)
    ensures Classify(word + rest) == Skip
  {
    StripTrimmed(word + rest);
    assert (word + rest)[..|word|] == word;
  }

  // ----- the file as text -----

  predicate IsBreak(c: char) {
    c == '\n' || c == '\r'
  }

  function LineEnd(s: string): (i: nat)
    ensures i <= |s|
    ensures i < |s| ==> IsBreak(s[i])
  {
    if s == "" || IsBreak(s[0]) then 0 else 1 + LineEnd(s[1..])
  }

  /** Iterating a file opened in text mode: lines end at "\n", "\r" or "\r\n". The terminator
      is left out because every line is stripped before use. */
  function ReadLines(s: string): seq<string>
    decreases |s|
  {
    var i := LineEnd(s);
    if s == "" then []
    else if i == |s| then [s]
    else if s[i] == '\r' && i + 1 < |s| && s[i + 1] == '\n' then [s[..i]] + ReadLines(s[i + 2..])
    else [s[..i]] + ReadLines(s[i + 1..])
  }

  /** The three line ends of a text file. */
  predicate IsLineEnd(end: string) {
    end == "\n" || end == "\r\n" || end == "\r"
  }

  function JoinLines(lines: seq<string>, end: string): string {
    if lines == [] then "" else lines[0] + end + JoinLines(lines[1..], end)
  }

  predicate OneLine(s: string) {
    forall i :: 0 <= i < |s| ==> !IsBreak(s[i])
  }

  lemma {:induction false} LineEndAt(s: string, rest: string)
    requires OneLine(s) && rest != "" && IsBreak(rest[0])
    ensures LineEnd(s + rest) == |s|
  {
    if s != "" {
      LineEndAt(s[1..], rest);
      assert (s + rest)[1..] == s[1..] + rest;
      assert (s + rest)[0] == s[0];
    } else {
      assert s + rest == rest;
    }
  }

  /** The lines of a joined text begin with no line feed. */
  lemma {:induction false} JoinedStart(lines: seq<string>, end: string)
    requires IsLineEnd(end) && end != "\n" && forall i :: 0 <= i < |lines| ==> OneLine(lines[i])
    ensures JoinLines(lines, end) != "" ==> JoinLines(lines, end)[0] != '\n'
  {
    if lines != [] && lines[0] != "" {
      assert JoinLines(lines, end)[0] == lines[0][0];
    }
  }

  /** What is read when the first break is at i. */
  lemma {:induction false} ReadAt(s: string, i: nat)
    requires s != "" && LineEnd(s) == i < |s|
    ensures ReadLines(s) ==
            if s[i] == '\r' && i + 1 < |s| && s[i + 1] == '\n' then [s[..i]] + ReadLines(s[i + 2..]) else [s[..i]] + ReadLines(s[i + 1..])
  {
    hide LineEnd;
  }

  /** A line and its end are read off the front of a text. */
  lemma {:induction false} ReadStep(line: string, end: string, rest: string)
    requires OneLine(line) && IsLineEnd(end)
    requires end != "\n" && rest != "" ==> rest[0] != '\n'
    ensures ReadLines(line + end + rest) == [line] + ReadLines(rest)
  {
    hide ReadLines, LineEnd, OneLine;
    var s, i := line + end + rest, |line|;
    assert s == line + (end + rest);
    LineEndAt(line, end + rest);
    ReadAt(s, i);
    assert s[..i] == line && s[i] == end[0];
    if end == "\r\n" {
      assert s[i + 1] == '\n' && s[i + 2..] == rest;
    } else {
      assert s[i + 1..] == rest;
      assert i + 1 < |s| ==> s[i + 1] == rest[0];
    }
  }

  lemma {:induction false} ReadJoined(lines: seq<string>, end: string)
    requires IsLineEnd(end) && forall i :: 0 <= i < |lines| ==> OneLine(lines[i])
    ensures ReadLines(JoinLines(lines, end)) == lines
  {
    hide OneLine;
    if lines != [] {
      ReadJoined(lines[1..], end);
      hide ReadLines;
      if end != "\n" {
        JoinedStart(lines[1..], end);
      }
      ReadStep(lines[0], end, JoinLines(lines[1..], end));
    }
  }

  ghost predicate AllOneLine(rs: seq<seq<Entry>>) {
    forall i :: 0 <= i < |rs| ==> RecordOneLine(rs[i])
  }

  predicate RecordOneLine(es: seq<Entry>) {
    forall j :: 0 <= j < |es| ==> OneLine(es[j].0) && OneLine(es[j].1)
  }

  lemma PrintedRecordIsLines(es: seq<Entry>)
    requires |es| > 0 && RecordOneLine(es)
    ensures forall n :: 0 <= n < |PrintRecord(es)| ==> OneLine(PrintRecord(es)[n])
  {
    forall n | 0 <= n < |PrintRecord(es)| ensures OneLine(PrintRecord(es)[n]) {
      assert OneLine(es[n].0) && OneLine(es[n].1);
    }
  }

  lemma {:induction false} PrintedLinesAreLines(rs: seq<seq<Entry>>)
    requires AllLegal(rs) && AllOneLine(rs)
    ensures forall n :: 0 <= n < |PrintRecords(rs)| ==> OneLine(PrintRecords(rs)[n])
  {
    if rs != [] {
      PrintedLinesAreLines(rs[1..]);
      PrintedRecordIsLines(rs[0]);
    }
  }

  /** Round trip on the text itself, with any of the line ends, when neither keys nor values hold a line break. */
  lemma TextRoundTrip(rs: seq<seq<Entry>>, end: string)
    requires AllLegal(rs) && AllOneLine(rs) && IsLineEnd(end)
    ensures Parsed(ReadLines(JoinLines(PrintFile(rs), end))) == Some(ToMaps(rs))
  {
    PrintedLinesAreLines(rs);
    ReadJoined(PrintFile(rs), end);
    FileRoundTrip(rs);
  }
}
