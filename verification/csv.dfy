/**
 * The pasted-CSV converter of csv.js: formatTimestamp and processCsvToJson.
 * The text of the first text area is the input of ProcessCsvToJson and the
 * text it writes into the second text area is its result.
 */
module Csv {
  import opened Wrappers
  import opened Seqs
  import opened JsStrings
  import opened Json

  /** The field names, in the order their values appear on a line. */
  const Headers: seq<string> := ["title", "url", "time_added", "tags", "status"]

  /** Shown when the pasted text is empty or only whitespace. */
  const EmptyInputMessage: string := "错误: 请在第一个文本框中输入 CSV 数据。"

  /** Shown when no line has enough fields. */
  const NoValidDataMessage: string := "未找到有效数据。请检查 CSV 格式。"

  // ---------------------------------------------------------------------
  // formatTimestamp
  // ---------------------------------------------------------------------

  type Month = m: int | 1 <= m <= 12 witness 1
  type Day = d: int | 1 <= d <= 31 witness 1

  /** What Date's getFullYear, getMonth() + 1 and getDate return in the host's time zone. */
  datatype CalendarDate = CalendarDate(year: int, month: Month, day: Day)

  /** The host's conversion of a time value (milliseconds since the epoch) to a local date. */
  type LocalCalendar = int -> CalendarDate

  /** The largest magnitude of a valid Date time value, in milliseconds (100 000 000 days). */
  const MaxTimeValue: int := 8_640_000_000_000_000

  /** The date "NaN-NaN-NaN" that an out-of-range time value prints as. */
  const InvalidDateText: string := "NaN-NaN-NaN"

  /**
   * formatTimestamp: "" when parseInt finds no number or finds 0; otherwise
   * the local date of that many seconds after the epoch as year-MM-DD, or
   * "NaN-NaN-NaN" when the instant is outside the range Date accepts.
   */
  function FormatTimestamp(timestampStr: string, localDate: LocalCalendar): (r: string)
    ensures r == "" <==> ParseInt(timestampStr) in {None, Some(0)}
  {
    match ParseInt(timestampStr)
    case None => ""
    case Some(t) =>
      if t == 0 then ""
      else if t * 1000 < -MaxTimeValue || MaxTimeValue < t * 1000 then InvalidDateText
      else DateText(localDate(t * 1000))
  }

  /** `${year}-${month}-${day}` with month and day padded to two digits. */
  function DateText(date: CalendarDate): (r: string)
    ensures r != ""
  {
    IntToString(date.year) + "-" + PadStart2(IntToString(date.month)) + "-" + PadStart2(IntToString(date.day))
  }

  /** s is exactly two decimal digits denoting n. */
  predicate TwoDigits(s: string, n: int)
  {
    |s| == 2 && IsDigit(s[0]) && IsDigit(s[1]) && DigitsValue(s) == n
  }

  lemma DashedLayout(y: string, mm: string, dd: string)
    requires |mm| == 2 && |dd| == 2
    ensures var r := y + "-" + mm + "-" + dd;
      && |r| == |y| + 6 && r[..|y|] == y && r[|y|] == '-' && r[|y| + 3] == '-'
      && r[|y| + 1..|y| + 3] == mm && r[|y| + 4..] == dd
  {
  }

  /**
   * The local year, a dash, the month as exactly two digits, a dash and the
   * day as exactly two digits.
   */
  lemma DateTextLayout(date: CalendarDate)
    ensures var r := DateText(date);
      var y := IntToString(date.year);
      && |r| == |y| + 6 && r[..|y|] == y && r[|y|] == '-' && r[|y| + 3] == '-'
      && TwoDigits(r[|y| + 1..|y| + 3], date.month) && TwoDigits(r[|y| + 4..], date.day)
  {
    PadStart2Digits(date.month);
    PadStart2Digits(date.day);
    DashedLayout(IntToString(date.year), PadStart2(IntToString(date.month)), PadStart2(IntToString(date.day)));
  }

  /** parseInt of the date text reads the year back: the digits stop at the first dash. */
  lemma DateTextYear(date: CalendarDate)
    ensures ParseInt(DateText(date)) == Some(date.year)
  {
    var rest := "-" + PadStart2(IntToString(date.month)) + "-" + PadStart2(IntToString(date.day));
    assert DateText(date) == IntToString(date.year) + rest;
    ParseIntToString(date.year, rest);
  }

  // ---------------------------------------------------------------------
  // Field clean-up
  // ---------------------------------------------------------------------

  /** No ';' is directly followed by another ';'. */
  predicate NoDoubleSemicolon(s: string)
  {
    forall i :: 0 <= i < |s| - 1 ==> !(s[i] == ';' && s[i + 1] == ';')
  }

  /** s without its ';' characters. */
  function WithoutSemicolons(s: string): string
  {
    if s == [] then [] else (if s[0] == ';' then [] else [s[0]]) + WithoutSemicolons(s[1..])
  }

  /** value.replace(/;+/g, ';'): every run of ';' becomes a single ';'. */
  function CollapseSemicolons(s: string): (r: string)
    ensures |r| <= |s|
    ensures s != [] ==> r != [] && r[0] == s[0]
    ensures NoDoubleSemicolon(r)
    ensures WithoutSemicolons(r) == WithoutSemicolons(s)
  {
    if |s| <= 1 then s
    else if s[0] == ';' && s[1] == ';' then
      assert WithoutSemicolons(s) == WithoutSemicolons(s[1..]);
      CollapseSemicolons(s[1..])
    else
      var rest := CollapseSemicolons(s[1..]);
      var r := [s[0]] + rest;
      assert r[1..] == rest;
      assert WithoutSemicolons(r) == (if s[0] == ';' then [] else [s[0]]) + WithoutSemicolons(rest);
      r
  }

  /** A string without ";;" is left as it is. */
  lemma {:induction false} CollapseKeepsClean(s: string)
    requires NoDoubleSemicolon(s)
    ensures CollapseSemicolons(s) == s
  {
    if |s| > 1 {
      CollapseKeepsClean(s[1..]);
      assert s == [s[0]] + s[1..];
    }
  }

  /** Collapsing twice is collapsing once. */
  lemma CollapseIdempotent(s: string)
    ensures CollapseSemicolons(CollapseSemicolons(s)) == CollapseSemicolons(s)
  {
    CollapseKeepsClean(CollapseSemicolons(s));
  }

  /**
   * value.replace(/^"|"$/g, ''): one '"' is removed from the start and one from
   * the end; a lone '"' is removed once.
   */
  function StripQuotes(s: string): (r: string)
    ensures exists i, j :: (0 <= i <= 1 && |s| - 1 <= j <= |s| && i <= j && r == s[i..j]
                            && (i == 1 <==> (s != [] && s[0] == '"'))
                            && (j == |s| - 1 <==> (|s| > i && s[|s| - 1] == '"')))
  {
    var i := if |s| > 0 && s[0] == '"' then 1 else 0;
    var j := if |s| > i && s[|s| - 1] == '"' then |s| - 1 else |s|;
    s[i..j]
  }

  // ---------------------------------------------------------------------
  // One line to one object
  // ---------------------------------------------------------------------

  /** values[index] ? values[index].trim() : "" */
  function FieldAt(values: seq<string>, index: nat): (r: string)
    ensures index < |values| ==> r == Trim(values[index])
    ensures index >= |values| ==> r == ""
  {
    if index < |values| then Trim(values[index]) else ""
  }

  /** The post-processing each key's trimmed value gets. */
  function ConvertField(key: string, value: string, localDate: LocalCalendar): (r: string)
    ensures key == "time_added" ==> (r == "" <==> ParseInt(value) in {None, Some(0)})
    ensures key == "tags" ==> NoDoubleSemicolon(r) && WithoutSemicolons(r) == WithoutSemicolons(value)
    ensures key == "title" ==> r == [] || (!IsWhitespace(r[0]) && !IsWhitespace(r[|r| - 1]))
    ensures key !in {"time_added", "tags", "title"} ==> r == value
  {
    if key == "time_added" then FormatTimestamp(value, localDate)
    else if key == "tags" then CollapseSemicolons(value)
    else if key == "title" then Trim(StripQuotes(value))
    else value
  }

  /** The object built from the comma-split values of a line. */
  function ItemOf(values: seq<string>, localDate: LocalCalendar): (item: Object)
    ensures |item| == |Headers|
    ensures forall i :: 0 <= i < |item| ==> item[i].key == Headers[i]
  {
    seq(|Headers|, i requires 0 <= i < |Headers| => Field(Headers[i], ConvertField(Headers[i], FieldAt(values, i), localDate)))
  }

  /** Fills the object one header at a time, as the inner loop of processCsvToJson does. */
  method BuildItem(values: seq<string>, localDate: LocalCalendar) returns (item: Object)
    ensures item == ItemOf(values, localDate)
  {
    item := [];
    var index := 0;
    while index < |Headers|
      invariant 0 <= index <= |Headers|
      invariant item == ItemOf(values, localDate)[..index]
    {
      var key := Headers[index];
      var value := if index < |values| then Trim(values[index]) else "";
      var field := Field(key, ConvertField(key, value, localDate));
      ItemOfAt(values, localDate, index);
      assert ItemOf(values, localDate)[..index + 1] == ItemOf(values, localDate)[..index] + [field];
      item := item + [field];
      index := index + 1;
    }
  }

  /** The value under the k-th key is the trimmed k-th field after that key's post-processing. */
  lemma ItemValue(values: seq<string>, localDate: LocalCalendar, k: nat)
    requires k < |Headers| <= |values|
    ensures var v := ItemOf(values, localDate)[k].value;
      && (k == 0 ==> v == Trim(StripQuotes(Trim(values[0]))))
      && (k == 1 ==> v == Trim(values[1]))
      && (k == 2 ==> v == FormatTimestamp(Trim(values[2]), localDate))
      && (k == 3 ==> v == CollapseSemicolons(Trim(values[3])))
      && (k == 4 ==> v == Trim(values[4]))
  {
    ItemOfAt(values, localDate, k);
    ConvertFieldAt(k, Trim(values[k]), localDate);
  }

  lemma ItemOfAt(values: seq<string>, localDate: LocalCalendar, k: nat)
    requires k < |Headers|
    ensures ItemOf(values, localDate)[k] == Field(Headers[k], ConvertField(Headers[k], FieldAt(values, k), localDate))
  {
  }

  /** The post-processing that the key at position k selects. */
  lemma ConvertFieldAt(k: nat, v: string, localDate: LocalCalendar)
    requires k < |Headers|
    ensures k == 0 ==> ConvertField(Headers[k], v, localDate) == Trim(StripQuotes(v))
    ensures k == 1 ==> ConvertField(Headers[k], v, localDate) == v
    ensures k == 2 ==> ConvertField(Headers[k], v, localDate) == FormatTimestamp(v, localDate)
    ensures k == 3 ==> ConvertField(Headers[k], v, localDate) == CollapseSemicolons(v)
    ensures k == 4 ==> ConvertField(Headers[k], v, localDate) == v
  {
  }

  // ---------------------------------------------------------------------
  // Runs of ';' seen through the pieces between them
  // ---------------------------------------------------------------------

  /**
   * The ';'-separated pieces of a string whose runs of ';' are single: the
   * first and last pieces stay, the empty pieces strictly between two ';' go.
   */
  function Squeeze(ps: seq<string>): seq<string>
    requires |ps| >= 1
  {
    if |ps| == 1 then ps else [ps[0]] + Filter(ps[1..|ps| - 1], IsNonEmpty) + [ps[|ps| - 1]]
  }

  /** Squeezing a sequence that starts with an empty piece and a non-empty one. */
  lemma SqueezeAfterEmpty(q: seq<string>)
    requires |q| >= 1 && q[0] != []
    ensures Squeeze([""] + q) == [""] + Squeeze(q)
  {
    var ps := [""] + q;
    if |q| > 1 {
      assert ps[1..|ps| - 1] == [q[0]] + q[1..|q| - 1];
      assert Filter(ps[1..|ps| - 1], IsNonEmpty) == [q[0]] + Filter(q[1..|q| - 1], IsNonEmpty);
    }
  }

  /** Squeezing a sequence that starts with two empty pieces drops one of them. */
  lemma SqueezeAfterTwoEmpty(p: seq<string>)
    requires |p| >= 1
    ensures Squeeze(["", ""] + p) == Squeeze([""] + p)
  {
    var ps := ["", ""] + p;
    var qs := [""] + p;
    var inner := p[..|p| - 1];
    assert ps[1..|ps| - 1] == [""] + inner;
    assert ([""] + inner)[1..] == inner;
    assert Filter([""] + inner, IsNonEmpty) == Filter(inner, IsNonEmpty);
    assert qs[1..|qs| - 1] == inner;
    assert ps[|ps| - 1] == qs[|qs| - 1];
  }

  /** Squeezing commutes with extending the first piece at its front. */
  lemma SqueezeExtendFirst(c: char, q: seq<string>)
    requires |q| >= 1
    ensures Squeeze([[c] + q[0]] + q[1..]) == [[c] + Squeeze(q)[0]] + Squeeze(q)[1..]
  {
    var ps := [[c] + q[0]] + q[1..];
    if |q| > 1 {
      var inner := Filter(q[1..|q| - 1], IsNonEmpty);
      assert ps[1..|ps| - 1] == q[1..|q| - 1];
      assert Squeeze(q) == [q[0]] + (inner + [q[|q| - 1]]);
      assert Squeeze(ps) == [[c] + q[0]] + (inner + [q[|q| - 1]]);
    }
  }

  /**
   * CollapseSemicolons is exactly: split at ';', drop the empty pieces that a
   * run of two or more ';' leaves between them, join with ';'.
   */
  lemma {:induction false} CollapsePieces(s: string)
    ensures Split(CollapseSemicolons(s), ';') == Squeeze(Split(s, ';'))
  {
    if |s| <= 1 {
    } else if s[0] == ';' && s[1] == ';' {
      CollapsePieces(s[1..]);
      var p := Split(s[2..], ';');
      assert s[1..][1..] == s[2..];
      assert Split(s[1..], ';') == [""] + p;
      assert Split(s, ';') == ["", ""] + p;
      SqueezeAfterTwoEmpty(p);
    } else if s[0] == ';' {
      CollapsePieces(s[1..]);
      var q := Split(s[1..], ';');
      var rest := CollapseSemicolons(s[1..]);
      assert CollapseSemicolons(s) == [';'] + rest;
      assert ([';'] + rest)[1..] == rest;
      assert q[0] != [] by {
        assert s[1..][0] != ';';
      }
      SqueezeAfterEmpty(q);
    } else {
      CollapsePieces(s[1..]);
      var q := Split(s[1..], ';');
      var rest := CollapseSemicolons(s[1..]);
      assert CollapseSemicolons(s) == [s[0]] + rest;
      assert ([s[0]] + rest)[1..] == rest;
      SqueezeExtendFirst(s[0], q);
    }
  }

  /** The reference definition: CollapseSemicolons(s) is Join(Squeeze(Split(s, ';')), ";"). */
  lemma CollapseByPieces(s: string)
    ensures CollapseSemicolons(s) == Join(Squeeze(Split(s, ';')), ";")
  {
    CollapsePieces(s);
    JoinSplit(CollapseSemicolons(s), ';');
  }

  // ---------------------------------------------------------------------
  // processCsvToJson
  // ---------------------------------------------------------------------

  /** A line that trim does not empty. */
  predicate IsNonBlank(line: string)
  {
    Trim(line) != ""
  }

  /** A line that splits into at least as many fields as there are headers. */
  predicate IsRecordLine(line: string)
  {
    |Split(line, ',')| >= |Headers|
  }

  /** The lines of the trimmed text, blank ones left out. */
  function Lines(csvText: string): (r: seq<string>)
    ensures forall i :: 0 <= i < |r| ==> !AllWhitespace(r[i])
  {
    Filter(Split(csvText, '\n'), IsNonBlank)
  }

  /**
   * One object per record line, in the order of the lines: what the forEach
   * over the lines pushes, one line at a time.
   */
  function Records(lines: seq<string>, localDate: LocalCalendar): (r: seq<Object>)
    ensures |r| <= |lines|
    ensures forall k :: 0 <= k < |r| ==> |r[k]| == |Headers|
  {
    if lines == [] then []
    else
      var line := lines[|lines| - 1];
      Records(lines[..|lines| - 1], localDate) + (if IsRecordLine(line) then [ItemOf(Split(line, ','), localDate)] else [])
  }

  /** The text "[\n" + the stringified objects joined by ",\n" + "\n]". */
  function ArrayText(items: seq<Object>): (r: string)
    ensures |r| >= 4 && r[0] == '['
  {
    "[\n" + Join(Map(items, Stringify), ",\n") + "\n]"
  }

  /** One more line: nothing more if it has too few fields, otherwise its object at the end. */
  lemma RecordsStep(lines: seq<string>, i: nat, localDate: LocalCalendar)
    requires i < |lines|
    ensures Records(lines[..i + 1], localDate)
         == Records(lines[..i], localDate) + (if IsRecordLine(lines[i]) then [ItemOf(Split(lines[i], ','), localDate)] else [])
  {
    assert lines[..i + 1][..i] == lines[..i];
  }

  /** The objects are those of the record lines, kept in order, and of no other line. */
  lemma {:induction false} RecordsOfRecordLines(lines: seq<string>, localDate: LocalCalendar)
    ensures var kept := Filter(lines, IsRecordLine);
      && |Records(lines, localDate)| == |kept|
      && (forall k :: 0 <= k < |kept| ==> Records(lines, localDate)[k] == ItemOf(Split(kept[k], ','), localDate))
  {
    if lines != [] {
      var init := lines[..|lines| - 1];
      var line := lines[|lines| - 1];
      RecordsOfRecordLines(init, localDate);
      assert lines == init + [line];
      FilterSnoc(init, line, IsRecordLine);
    }
  }

  /** The record lines form a subsequence of the lines and include every line with enough fields. */
  lemma RecordLinesInOrder(lines: seq<string>)
    ensures var kept := Filter(lines, IsRecordLine);
      && IsSubsequence(kept, lines)
      && (forall k :: 0 <= k < |kept| ==> IsRecordLine(kept[k]))
      && (forall i :: 0 <= i < |lines| && IsRecordLine(lines[i]) ==> lines[i] in kept)
  {
    FilterIsSubsequence(lines, IsRecordLine);
  }

  /** Lines are converted independently of each other. */
  lemma {:induction false} RecordsAppend(a: seq<string>, b: seq<string>, localDate: LocalCalendar)
    ensures Records(a + b, localDate) == Records(a, localDate) + Records(b, localDate)
    decreases |b|
  {
    if b == [] {
      assert a + b == a;
    } else {
      var init := b[..|b| - 1];
      RecordsAppend(a, init, localDate);
      assert (a + b)[..|a + b| - 1] == a + init;
      assert (a + b)[|a + b| - 1] == b[|b| - 1];
    }
  }

  /** Fields after the fifth are ignored. */
  lemma ExtraFieldsIgnored(line: string, extra: string, localDate: LocalCalendar)
    requires IsRecordLine(line)
    ensures IsRecordLine(line + "," + extra)
    ensures ItemOf(Split(line + "," + extra, ','), localDate) == ItemOf(Split(line, ','), localDate)
  {
    SplitConcat(line, ',', extra);
    assert line + "," + extra == line + [','] + extra;
  }

  /** A text that does not start with '[' is not read as an array. */
  lemma NotAnArray(t: string)
    requires t != [] && t[0] != '['
    ensures ReadArray(t) == None
  {
    assert !StartsWith(t, "[\n") by {
      if |t| >= 2 {
        assert t[..2][0] == t[0];
      }
    }
  }

  /** The three kinds of output are told apart by reading them as a JSON array. */
  lemma OutputKinds(items: seq<Object>)
    ensures ReadArray(EmptyInputMessage) == None && ReadArray(NoValidDataMessage) == None
    ensures EmptyInputMessage != NoValidDataMessage
    ensures items != [] ==> ReadArray(ArrayText(items)) == Some(items)
  {
    NotAnArray(EmptyInputMessage);
    NotAnArray(NoValidDataMessage);
    assert EmptyInputMessage[0] != NoValidDataMessage[0];
    if items != [] {
      ReadArrayOf(items);
    }
  }

  /** Nothing is left of an all-whitespace text. */
  lemma NoLinesWhenBlank(text: string)
    requires AllWhitespace(text)
    ensures Lines(Trim(text)) == []
  {
    assert Trim(text) == "";
    assert Split("", '\n') == [""];
  }

  /**
   * The forEach over the non-blank lines: each line with at least as many
   * comma-separated fields as there are headers becomes one object, pushed
   * in line order; every other line is skipped.
   */
  method CollectRecords(lines: seq<string>, localDate: LocalCalendar) returns (jsonArray: seq<Object>)
    ensures jsonArray == Records(lines, localDate)
  {
    jsonArray := [];
    var i := 0;
    while i < |lines|
      invariant 0 <= i <= |lines|
      invariant jsonArray == Records(lines[..i], localDate)
    {
      var line := lines[i];
      var values := Split(line, ',');
      RecordsStep(lines, i, localDate);
      if |values| >= |Headers| {
        var item := BuildItem(values, localDate);
        assert IsRecordLine(line);
        jsonArray := jsonArray + [item];
      } else {
        assert !IsRecordLine(line);
      }
      i := i + 1;
    }
    assert lines[..|lines|] == lines;
  }

  /**
   * processCsvToJson: the message for empty input, the message for input
   * without a record line, or the array text of one object per record line,
   * which reads back as exactly those objects.
   */
  method ProcessCsvToJson(text: string, localDate: LocalCalendar) returns (output: string)
    ensures output == EmptyInputMessage <==> AllWhitespace(text)
    ensures var items := Records(Lines(Trim(text)), localDate);
      output == NoValidDataMessage <==> !AllWhitespace(text) && items == []
    ensures var items := Records(Lines(Trim(text)), localDate);
      ReadArray(output) == (if items == [] then None else Some(items))
    ensures var items := Records(Lines(Trim(text)), localDate);
      items != [] ==> output == ArrayText(items)
  {
    var csvText := Trim(text);
    if csvText == "" {
      NoLinesWhenBlank(text);
      OutputKinds([]);
      return EmptyInputMessage;
    }
    var lines := Lines(csvText);
    var jsonArray := CollectRecords(lines, localDate);
    OutputKinds(jsonArray);
    if |jsonArray| > 0 {
      output := ArrayText(jsonArray);
      assert output != EmptyInputMessage && output != NoValidDataMessage by {
        assert output[0] == '[';
        assert EmptyInputMessage[0] != '[' && NoValidDataMessage[0] != '[';
      }
    } else {
      output := NoValidDataMessage;
    }
    assert !AllWhitespace(text);
  }

  /** A fixed example: every run of ';' in a tag list becomes one. */
  lemma CollapseExample()
    ensures CollapseSemicolons("a;;b;;;c") == "a;b;c"
  {
  }
}
