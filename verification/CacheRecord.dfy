/**
The cache's metadata files, browser/src/cache.rs: one named value a line,
written in one order and read in any.
*/
module CacheRecord {
  import opened Wrappers
  import opened Decimal
  import opened Basics

  const MAX_CACHE_META_BYTES := 4096
  const META_MAGIC := "tab5-browser-cache 1"

  datatype Record = Record(
    key: string, etag: string, mediaType: string, charset: string,
    bodyBytes: nat, storedMs: nat, expiresMs: nat, usedMs: nat, revalidate: bool, security: nat)
  {
    /** The integer fields' widths. */
    predicate Valid() {
      bodyBytes < U64 && storedMs < U64 && expiresMs < U64 && usedMs < U64 && security < 256
    }
  }

  // --- text -----------------------------------------------------------------

  /** Bytes a character takes in UTF-8. */
  function ByteLen(text: string): nat {
    if text == "" then 0 else ByteLen(text[..|text| - 1]) + CharBytes(text[|text| - 1])
  }

  lemma {:induction false} ByteLenAppend(a: string, b: string)
    ensures ByteLen(a + b) == ByteLen(a) + ByteLen(b)
  {
    if b == "" {
      assert a + b == a;
    } else {
      assert (a + b)[..|a + b| - 1] == a + b[..|b| - 1];
      ByteLenAppend(a, b[..|b| - 1]);
    }
  }

  lemma {:induction false} ByteLenAscii(text: string)
    requires forall i :: 0 <= i < |text| ==> text[i] < '\U{80}'
    ensures ByteLen(text) == |text|
  {
    if text != "" {
      ByteLenAscii(text[..|text| - 1]);
    }
  }

  /** The first place `c` stands, or the length. */
  function Find(text: string, c: char): (index: nat)
    ensures index <= |text|
    ensures c !in text[..index]
    ensures index < |text| ==> text[index] == c
  {
    if text == "" || text[0] == c then 0
    else
      var rest := Find(text[1..], c);
      assert text[..rest + 1] == [text[0]] + text[1..][..rest];
      rest + 1
  }

  lemma {:induction false} FindFirst(a: string, c: char, b: string)
    requires c !in a
    ensures Find(a + [c] + b, c) == |a|
  {
    var text := a + [c] + b;
    var index := Find(text, c);
    assert text[|a|] == c;
    assert forall i :: 0 <= i < |a| ==> text[i] == a[i];
    assert forall i :: |a| < i <= |text| ==> text[..i][|a|] == c;
  }

  function Split(text: string, c: char): (parts: seq<string>)
    ensures |parts| > 0
    ensures forall i :: 0 <= i < |parts| ==> c !in parts[i]
    decreases |text|
  {
    var index := Find(text, c);
    if index == |text| then [text] else [text[..index]] + Split(text[index + 1..], c)
  }

  lemma SplitFirst(a: string, c: char, b: string)
    requires c !in a
    ensures Split(a + [c] + b, c) == [a] + Split(b, c)
  {
    FindFirst(a, c, b);
    var text := a + [c] + b;
    assert text[..|a|] == a && text[|a| + 1..] == b;
  }

  // --- one line -------------------------------------------------------------

  const NAMES := ["key", "etag", "type", "charset", "bytes", "stored", "expires", "used", "revalidate", "security"]

  /** What has been read so far: the four texts, then the six numbers. */
  datatype Fields = Fields(texts: seq<Option<string>>, numbers: seq<Option<nat>>) {
    predicate Valid() {
      |texts| == 4 && |numbers| == 6
    }
  }

  const NOTHING := Fields([None, None, None, None], [None, None, None, None, None, None])

  function Number(text: string): Option<nat> {
    if text == "" || !AllDigits(text) || ParseDigits(text) >= U64 then None else Some(ParseDigits(text))
  }

  /** The largest value the reader takes for number `n`. */
  function Limit(n: nat): nat {
    if n == 4 then 1 else if n == 5 then 3 else U64 - 1
  }

  /** Which field a name stands for, counted through texts and numbers; 10 for none. */
  function FieldOf(name: string, from: nat := 0): (n: nat)
    requires from <= 10
    ensures from <= n <= 10 && (n < 10 ==> NAMES[n] == name) && forall k :: from <= k < n ==> NAMES[k] != name
    decreases 10 - from
  {
    if from == 10 || NAMES[from] == name then from else FieldOf(name, from + 1)
  }

  lemma NamesDiffer(j: nat, k: nat)
    requires j < k < 10
    ensures NAMES[j] != NAMES[k]
  {
    var a, b := NAMES[j], NAMES[k];
    assert |a| != |b| || a[0] != b[0] || a[1] != b[1] || a[2] != b[2];
  }

  lemma FieldOfName(n: nat)
    requires n < 10
    ensures FieldOf(NAMES[n]) == n
  {
    var found := FieldOf(NAMES[n]);
    if found < n {
      NamesDiffer(found, n);
    }
  }

  /** The fields by name: four texts, four numbers of 64 bits, a flag and a code from 0 to 3. */
  lemma FieldsByName()
    ensures FieldOf("key") == 0 && FieldOf("etag") == 1 && FieldOf("type") == 2 && FieldOf("charset") == 3
    ensures FieldOf("bytes") == 4 && FieldOf("stored") == 5 && FieldOf("expires") == 6 && FieldOf("used") == 7
    ensures FieldOf("revalidate") == 8 && FieldOf("security") == 9
    ensures Limit(8 - 4) == 1 && Limit(9 - 4) == 3 && forall n :: 0 <= n < 4 ==> Limit(n) == U64 - 1
  {
    forall n | 0 <= n < 10
      ensures FieldOf(NAMES[n]) == n
    {
      FieldOfName(n);
    }
    assert NAMES[0] == "key" && NAMES[1] == "etag" && NAMES[2] == "type" && NAMES[3] == "charset"
        && NAMES[4] == "bytes";
    assert NAMES[5] == "stored" && NAMES[6] == "expires" && NAMES[7] == "used" && NAMES[8] == "revalidate";
    assert NAMES[9] == "security";
  }

  lemma NobodysName(name: string)
    ensures FieldOf(name) < 10 ==>
              || name == "key" || name == "etag" || name == "type" || name == "charset" || name == "bytes"
              || name == "stored" || name == "expires" || name == "used" || name == "revalidate" || name == "security"
  {
  }

  /** One line's effect: a later line for a field replaces an earlier one. */
  function Take(f: Fields, line: string): (next: Option<Fields>)
    requires f.Valid()
    ensures next.Some? ==> next.value.Valid()
  {
    var space := Find(line, ' ');
    if space == |line| then None
    else
      var n, value := FieldOf(line[..space]), line[space + 1..];
      if n < 4 then Some(f.(texts := f.texts[n := Some(value)]))
      else if n < 10 && Number(value).Some? && Number(value).value <= Limit(n - 4)
      then Some(f.(numbers := f.numbers[n - 4 := Number(value)]))
      else None
  }

  /** Every line's effect, in order; empty lines have none. */
  function TakeAll(lines: seq<string>): (fields: Option<Fields>)
    ensures fields.Some? ==> fields.value.Valid()
  {
    if lines == [] then Some(NOTHING)
    else
      match TakeAll(lines[..|lines| - 1])
      case None => None
      case Some(f) => if lines[|lines| - 1] == "" then Some(f) else Take(f, lines[|lines| - 1])
  }

  function ToRecord(f: Fields): Option<Record>
    requires f.Valid()
  {
    if (exists i :: 0 <= i < 4 && f.texts[i].None?) || (exists i :: 0 <= i < 6 && f.numbers[i].None?)
        || f.texts[0] == Some("") then None
    else
      Some(Record(f.texts[0].value, f.texts[1].value, f.texts[2].value, f.texts[3].value,
                  f.numbers[0].value, f.numbers[1].value, f.numbers[2].value, f.numbers[3].value,
                  f.numbers[4].value == 1, f.numbers[5].value % 256))
  }

  /** What a metadata file says, or nothing when it says it wrongly. */
  function Decoded(text: string): Option<Record> {
    if ByteLen(text) > MAX_CACHE_META_BYTES then None
    else
      var lines := Split(text, '\n');
      if lines[0] != META_MAGIC then None
      else
        match TakeAll(lines[1..])
        case None => None
        case Some(f) => ToRecord(f)
  }

  // --- what a file says, by the names on its lines ----------------------------

  /** A line for the field with this name. */
  predicate IsFor(line: string, name: string) {
    |name| < |line| && line[..|name|] == name && line[|name|] == ' '
  }

  /** What the last line for this field holds behind the name. */
  function LastValue(lines: seq<string>, name: string): Option<string> {
    if lines == [] then None
    else
      var last := lines[|lines| - 1];
      if IsFor(last, name) then Some(last[|name| + 1..]) else LastValue(lines[..|lines| - 1], name)
  }

  /** A line that holds a number, at most `limit`. */
  predicate IsNumberFor(line: string, name: string, limit: nat) {
    && IsFor(line, name)
    && var digits := line[|name| + 1..]; digits != "" && AllDigits(digits) && ParseDigits(digits) <= limit
  }

  /** A line for a text, or one for a number within its limit. */
  ghost predicate IsGoodLine(line: string) {
    exists n: nat :: n < 10 && IsFor(line, NAMES[n]) && (n < 4 || IsNumberFor(line, NAMES[n], Limit(n - 4)))
  }

  /** The lines behind the first one say this record: each is empty or a good one, and the last one for each
      field holds it. */
  ghost predicate SayRecord(lines: seq<string>, r: Record) {
    (forall i :: 0 <= i < |lines| ==> lines[i] == "" || IsGoodLine(lines[i])) && LastSay(lines, r)
  }

  predicate LastSay(lines: seq<string>, r: Record) {
    && LastValue(lines, "key") == Some(r.key) && r.key != "" && LastValue(lines, "etag") == Some(r.etag)
    && LastValue(lines, "type") == Some(r.mediaType) && LastValue(lines, "charset") == Some(r.charset)
    && LastIs(lines, "bytes", r.bodyBytes) && LastIs(lines, "stored", r.storedMs)
    && LastIs(lines, "expires", r.expiresMs) && LastIs(lines, "used", r.usedMs)
    && LastIs(lines, "revalidate", if r.revalidate then 1 else 0) && LastIs(lines, "security", r.security)
  }

  /** The last line for this field holds this number of 64 bits, in digits. */
  predicate LastIs(lines: seq<string>, name: string, n: nat) {
    var value := LastValue(lines, name);
    value.Some? && value.value != "" && AllDigits(value.value) && ParseDigits(value.value) == n < U64
  }

  function LastNumber(lines: seq<string>, name: string): Option<nat> {
    var value := LastValue(lines, name);
    if value.None? then None else Number(value.value)
  }

  /** The fields gathered from these lines. */
  predicate Gathered(lines: seq<string>, f: Fields) {
    var ok :=
      && f.Valid()
      && f.texts[0] == LastValue(lines, "key") && f.texts[1] == LastValue(lines, "etag")
      && f.texts[2] == LastValue(lines, "type") && f.texts[3] == LastValue(lines, "charset")
      && f.numbers[0] == LastNumber(lines, "bytes") && f.numbers[1] == LastNumber(lines, "stored")
      && f.numbers[2] == LastNumber(lines, "expires") && f.numbers[3] == LastNumber(lines, "used")
      && f.numbers[4] == LastNumber(lines, "revalidate") && f.numbers[5] == LastNumber(lines, "security");
    ok
  }

  lemma NameEndsAtSpace(line: string, name: string)
    requires ' ' !in name
    ensures IsFor(line, name) <==> Find(line, ' ') < |line| && line[..Find(line, ' ')] == name
  {
    var space := Find(line, ' ');
    if IsFor(line, name) {
      assert forall i :: 0 <= i < space ==> line[..space][i] != ' ';
      assert forall i :: 0 <= i < |name| ==> line[..|name|][i] != ' ';
    }
  }

  /** The value a field has after one more line. */
  function After(line: string, name: string, before: Option<string>): Option<string> {
    if IsFor(line, name) then Some(line[|name| + 1..]) else before
  }

  lemma ValueAfter(lines: seq<string>, line: string, name: string)
    ensures LastValue(lines + [line], name) == After(line, name, LastValue(lines, name))
  {
    assert (lines + [line])[..|lines|] == lines;
  }

  function NumberAfter(line: string, name: string, before: Option<nat>): Option<nat> {
    if IsFor(line, name) then Number(line[|name| + 1..]) else before
  }

  /** A good line sets the field it names and no other; other lines refuse the file. */
  lemma TakeByName(f: Fields, line: string)
    requires f.Valid()
    ensures Take(f, line).Some? <==> IsGoodLine(line)
    ensures Take(f, line).Some? ==>
              forall n :: 0 <= n < 10 ==>
                if n < 4 then Take(f, line).value.texts[n] == After(line, NAMES[n], f.texts[n])
                else Take(f, line).value.numbers[n - 4] == NumberAfter(line, NAMES[n], f.numbers[n - 4])
  {
    LineIsFor(line);
  }

  /** Which field a line is for. */
  lemma LineIsFor(line: string)
    ensures var space := Find(line, ' ');
            var n := if space < |line| then FieldOf(line[..space]) else 10;
            && (forall k :: 0 <= k < 10 ==> (IsFor(line, NAMES[k]) <==> k == n)) && (n < 10 ==> |NAMES[n]| == space)
  {
    var space := Find(line, ' ');
    forall k | 0 <= k < 10
      ensures IsFor(line, NAMES[k]) <==> space < |line| && FieldOf(line[..space]) == k
    {
      NamesAreWords(k);
      NameEndsAtSpace(line, NAMES[k]);
    }
  }

  lemma AllNames()
    ensures "key" in NAMES && "etag" in NAMES && "type" in NAMES && "charset" in NAMES && "bytes" in NAMES
    ensures "stored" in NAMES && "expires" in NAMES && "used" in NAMES && "revalidate" in NAMES && "security" in NAMES
  {
    assert NAMES[0] == "key" && NAMES[1] == "etag" && NAMES[2] == "type" && NAMES[3] == "charset"
        && NAMES[4] == "bytes";
    assert NAMES[5] == "stored" && NAMES[6] == "expires" && NAMES[7] == "used" && NAMES[8] == "revalidate";
    assert NAMES[9] == "security";
  }

  lemma LineGathers(lines: seq<string>, f: Fields, line: string)
    requires Gathered(lines, f) && Take(f, line).Some?
    ensures Gathered(lines + [line], Take(f, line).value)
  {
    var next := Take(f, line).value;
    TakeByName(f, line);
    forall name | name in NAMES
      ensures LastValue(lines + [line], name) == After(line, name, LastValue(lines, name))
      ensures LastNumber(lines + [line], name) == NumberAfter(line, name, LastNumber(lines, name))
    {
      ValueAfter(lines, line, name);
    }
    AllNames();
    assert next.texts[0] == After(line, NAMES[0], f.texts[0]) && next.texts[1] == After(line, NAMES[1], f.texts[1]);
    assert next.texts[2] == After(line, NAMES[2], f.texts[2]) && next.texts[3] == After(line, NAMES[3], f.texts[3]);
    assert next.numbers[4 - 4] == NumberAfter(line, NAMES[4], f.numbers[4 - 4]);
    assert next.numbers[5 - 4] == NumberAfter(line, NAMES[5], f.numbers[5 - 4]);
    assert next.numbers[6 - 4] == NumberAfter(line, NAMES[6], f.numbers[6 - 4]);
    assert next.numbers[7 - 4] == NumberAfter(line, NAMES[7], f.numbers[7 - 4]);
    assert next.numbers[8 - 4] == NumberAfter(line, NAMES[8], f.numbers[8 - 4]);
    assert next.numbers[9 - 4] == NumberAfter(line, NAMES[9], f.numbers[9 - 4]);
  }

  lemma EmptyLineGathers(lines: seq<string>, f: Fields)
    requires Gathered(lines, f)
    ensures Gathered(lines + [""], f)
  {
    forall name: string
      ensures LastValue(lines + [""], name) == LastValue(lines, name)
    {
      ValueAfter(lines, "", name);
    }
  }

  lemma {:induction false} AllLinesGather(lines: seq<string>)
    ensures TakeAll(lines).Some? <==> forall i :: 0 <= i < |lines| ==> lines[i] == "" || IsGoodLine(lines[i])
    ensures TakeAll(lines).Some? ==> Gathered(lines, TakeAll(lines).value)
  {
    if lines != [] {
      var init, last := lines[..|lines| - 1], lines[|lines| - 1];
      AllLinesGather(init);
      assert lines == init + [last];
      if TakeAll(init).Some? {
        var f := TakeAll(init).value;
        if last == "" {
          EmptyLineGathers(init, f);
        } else {
          TakeByName(f, last);
          if Take(f, last).Some? {
            LineGathers(init, f, last);
          }
        }
      }
    }
  }

  /** A file is decoded exactly when it is short enough, begins with the magic line, and its other lines say a
      record; and then that record. */
  lemma DecodesWhatLinesSay(text: string, r: Record)
    ensures Decoded(text) == Some(r) <==>
              && ByteLen(text) <= MAX_CACHE_META_BYTES && Split(text, '\n')[0] == META_MAGIC
              && SayRecord(Split(text, '\n')[1..], r)
  {
    var lines := Split(text, '\n');
    AllLinesGather(lines[1..]);
    if TakeAll(lines[1..]).Some? {
      LimitsAreKept(lines[1..]);
      GatheredSays(lines[1..], TakeAll(lines[1..]).value, r);
    }
  }

  lemma GatheredSays(lines: seq<string>, f: Fields, r: Record)
    requires Gathered(lines, f) && (f.numbers[4].Some? ==> f.numbers[4].value <= 1)
    requires f.numbers[5].Some? ==> f.numbers[5].value <= 3
    ensures ToRecord(f) == Some(r) <==> LastSay(lines, r)
  {
  }

  lemma {:induction false} LimitsAreKept(lines: seq<string>)
    requires TakeAll(lines).Some?
    ensures forall n :: 0 <= n < 6 && TakeAll(lines).value.numbers[n].Some? ==>
              TakeAll(lines).value.numbers[n].value <= Limit(n)
  {
    if lines != [] {
      LimitsAreKept(lines[..|lines| - 1]);
    }
  }

  // --- writing ----------------------------------------------------------------

  function Line(name: string, value: string): string {
    name + " " + value + "\n"
  }

  /** The values of a record's lines. */
  function Values(r: Record): (values: seq<string>)
    ensures |values| == 10
  {
    [r.key, r.etag, r.mediaType, r.charset, Numeral(r.bodyBytes), Numeral(r.storedMs), Numeral(r.expiresMs),
     Numeral(r.usedMs),
     Numeral(if r.revalidate then 1 else 0), Numeral(r.security)]
  }

  /** The lines from field `n` on. */
  function LinesFrom(values: seq<string>, n: nat): string
    requires |values| == 10 && n <= 10
    decreases 10 - n
  {
    if n == 10 then "" else Line(NAMES[n], values[n]) + LinesFrom(values, n + 1)
  }

  function Written(r: Record): string {
    Header() + LinesFrom(Values(r), 0)
  }

  function Header(): string {
    META_MAGIC + "\n"
  }

  predicate OneLine(text: string) {
    '\r' !in text && '\n' !in text
  }

  function Encoded(r: Record): Option<string> {
    if !TextsAreOneLine(r) then None
    else if ByteLen(Written(r)) > MAX_CACHE_META_BYTES then None
    else Some(Written(r))
  }

  // --- reading back what was written ----------------------------------------

  /** The lines of a record, without their line ends. */
  function LinesOf(values: seq<string>): (lines: seq<string>)
    requires |values| == 10
    ensures |lines| == 10
  {
    seq(10, i requires 0 <= i < 10 => NAMES[i] + " " + values[i])
  }

  predicate NoLineEnds(values: seq<string>) {
    forall i :: 0 <= i < |values| ==> '\n' !in values[i]
  }

  lemma NamesAreWords(n: nat)
    requires n < 10
    ensures ' ' !in NAMES[n] && '\n' !in NAMES[n] && FieldOf(NAMES[n]) == n && ByteLen(NAMES[n]) == |NAMES[n]|
  {
    FieldOfName(n);
    NamesArePlain(n);
    ByteLenAscii(NAMES[n]);
  }

  lemma NamesArePlain(n: nat)
    requires n < 10
    ensures ' ' !in NAMES[n] && '\n' !in NAMES[n] && forall i :: 0 <= i < |NAMES[n]| ==> NAMES[n][i] < '\U{80}'
  {
  }

  lemma NumeralsAreOneLine(value: nat)
    ensures OneLine(Numeral(value)) && ByteLen(Numeral(value)) == |Numeral(value)|
  {
    ByteLenAscii(Numeral(value));
  }

  lemma {:induction false} WrittenLinesSplit(values: seq<string>, n: nat)
    requires |values| == 10 && n <= 10 && NoLineEnds(values)
    ensures Split(LinesFrom(values, n), '\n') == LinesOf(values)[n..] + [""]
    decreases 10 - n
  {
    var lines := LinesOf(values);
    if n < 10 {
      NamesAreWords(n);
      WrittenLinesSplit(values, n + 1);
      SplitFirst(lines[n], '\n', LinesFrom(values, n + 1));
      assert Line(NAMES[n], values[n]) == lines[n] + ['\n'];
      assert lines[n..] == [lines[n]] + lines[n + 1..];
    }
  }

  /** The fields after the first `n` lines of a record. */
  function FirstFields(values: seq<string>, n: nat): (f: Fields)
    requires |values| == 10 && forall i :: 4 <= i < 10 ==> AllDigits(values[i])
    ensures f.Valid()
  {
    Fields(seq(4, i requires 0 <= i < 4 => if i < n then Some(values[i]) else None),
           seq(6, i requires 0 <= i < 6 => if i + 4 < n then Some(ParseDigits(values[i + 4])) else None))
  }

  lemma TakeWritten(values: seq<string>, n: nat)
    requires |values| == 10 && n < 10 && forall i :: 4 <= i < 10 ==> values[i] != "" && AllDigits(values[i])
    ensures Take(FirstFields(values, n), NAMES[n] + " " + values[n]) ==
            if n < 4 || ParseDigits(values[n]) <= Limit(n - 4) then Some(FirstFields(values, n + 1)) else None
  {
    NamesAreWords(n);
    FindFirst(NAMES[n], ' ', values[n]);
    var line := NAMES[n] + " " + values[n];
    assert line[..|NAMES[n]|] == NAMES[n] && line[|NAMES[n]| + 1..] == values[n];
    var f, g := FirstFields(values, n), FirstFields(values, n + 1);
    if n < 4 {
      assert f.texts[n := Some(values[n])] == g.texts && f.numbers == g.numbers;
    } else {
      assert f.numbers[n - 4 := Some(ParseDigits(values[n]))] == g.numbers && f.texts == g.texts;
    }
  }

  lemma {:induction false} TakeWrittenLines(values: seq<string>, n: nat)
    requires |values| == 10 && n <= 10 && forall i :: 4 <= i < 10 ==> values[i] != "" && AllDigits(values[i])
    requires forall i :: 4 <= i < n ==> ParseDigits(values[i]) <= Limit(i - 4)
    ensures TakeAll(LinesOf(values)[..n]) == Some(FirstFields(values, n))
  {
    if n == 0 {
      assert FirstFields(values, 0) == NOTHING;
    } else {
      var lines := LinesOf(values);
      TakeWrittenLines(values, n - 1);
      TakeWritten(values, n - 1);
      assert lines[..n][..n - 1] == lines[..n - 1] && lines[..n][n - 1] == lines[n - 1];
      assert lines[n - 1] != "";
    }
  }

  /** A record's numbers are read as they were. */
  lemma ValuesAreRead(r: Record)
    ensures var v := Values(r);
            && (forall i :: 4 <= i < 10 ==> v[i] != "" && AllDigits(v[i]))
            && ParseDigits(v[4]) == r.bodyBytes && ParseDigits(v[5]) == r.storedMs && ParseDigits(v[6]) == r.expiresMs
            && ParseDigits(v[7]) == r.usedMs && ParseDigits(v[8]) == (if r.revalidate then 1 else 0)
            && ParseDigits(v[9]) == r.security
  {
    NumeralIsRead(r.bodyBytes);
    NumeralIsRead(r.storedMs);
    NumeralIsRead(r.expiresMs);
    NumeralIsRead(r.usedMs);
    NumeralIsRead(if r.revalidate then 1 else 0);
    NumeralIsRead(r.security);
  }

  lemma LastLineTaken(lines: seq<string>, line: string)
    ensures TakeAll(lines + [line]) ==
            match TakeAll(lines)
            case None => None
            case Some(f) => if line == "" then Some(f) else Take(f, line)
  {
    assert (lines + [line])[..|lines|] == lines;
  }

  lemma AllFieldsAreTheRecord(r: Record)
    requires r.security <= 3
    ensures ToRecord(FirstFields(Values(r), 10)) == if r.key == "" then None else Some(r)
  {
    ValuesAreRead(r);
    var f := FirstFields(Values(r), 10);
    assert forall i :: 0 <= i < 4 ==> f.texts[i] == Some(Values(r)[i]);
    assert forall i :: 0 <= i < 6 ==> f.numbers[i] == Some(ParseDigits(Values(r)[i + 4]));
  }

  /** Reading back the ten lines gives every field, unless the security code is one the reader refuses. */
  lemma WrittenIsTaken(r: Record)
    requires r.Valid()
    ensures TakeAll(LinesOf(Values(r)) + [""]) == if r.security > 3 then None else Some(FirstFields(Values(r), 10))
  {
    var values := Values(r);
    var lines := LinesOf(values);
    ValuesAreRead(r);
    TakeWrittenLines(values, 9);
    TakeWritten(values, 9);
    LastLineTaken(lines[..9], lines[9]);
    assert lines == lines[..9] + [lines[9]] && lines[9] != "";
    LastLineTaken(lines, "");
  }

  predicate TextsAreOneLine(r: Record) {
    OneLine(r.key) && OneLine(r.etag) && OneLine(r.mediaType) && OneLine(r.charset)
  }

  lemma ValuesAreOneLine(r: Record)
    requires TextsAreOneLine(r)
    ensures NoLineEnds(Values(r))
  {
    NumeralsAreOneLine(r.bodyBytes);
    NumeralsAreOneLine(r.storedMs);
    NumeralsAreOneLine(r.expiresMs);
    NumeralsAreOneLine(r.usedMs);
    NumeralsAreOneLine(if r.revalidate then 1 else 0);
    NumeralsAreOneLine(r.security);
  }

  lemma MagicIsOneLine()
    ensures '\n' !in META_MAGIC && ByteLen(META_MAGIC) == |META_MAGIC|
  {
    var magic := META_MAGIC;
    forall i | 0 <= i < |magic|
      ensures magic[i] < '\U{80}' && magic[i] != '\n'
    {
    }
    ByteLenAscii(magic);
  }

  lemma WrittenSplits(r: Record)
    requires TextsAreOneLine(r)
    ensures Split(Written(r), '\n') == [META_MAGIC] + (LinesOf(Values(r)) + [""])
  {
    ValuesAreOneLine(r);
    WrittenLinesSplit(Values(r), 0);
    MagicIsOneLine();
    SplitFirst(META_MAGIC, '\n', LinesFrom(Values(r), 0));
  }

  /** A record that encodes is read back as itself exactly when its key is not empty and its security
      code is one of the four in use; otherwise the file it wrote is refused. */
  lemma RoundTrip(r: Record)
    requires r.Valid() && Encoded(r).Some?
    ensures Decoded(Encoded(r).value) == if r.key != "" && r.security <= 3 then Some(r) else None
  {
    WrittenIsTaken(r);
    WrittenIsDecoded(r);
    if r.security <= 3 {
      AllFieldsAreTheRecord(r);
    }
  }

  /** The reader takes the lines behind the first one. */
  lemma WrittenIsDecoded(r: Record)
    requires r.Valid() && Encoded(r).Some?
    ensures Decoded(Encoded(r).value) ==
              match TakeAll(LinesOf(Values(r)) + [""]) case None => None case Some(f) => ToRecord(f)
  {
    WrittenSplits(r);
    var lines := LinesOf(Values(r)) + [""];
    assert ([META_MAGIC] + lines)[1..] == lines;
  }

  // --- writing back what was read -------------------------------------------

  /** Bytes the line of field `n` would take. */
  function SlotBytes(f: Fields, n: nat): nat
    requires f.Valid() && n < 10
  {
    if n < 4 then (if f.texts[n].None? then 0 else |NAMES[n]| + 2 + ByteLen(f.texts[n].value))
    else if f.numbers[n - 4].None? then 0
    else |NAMES[n]| + 2 + |Numeral(f.numbers[n - 4].value)|
  }

  function Slots(f: Fields): (slots: seq<nat>)
    requires f.Valid()
    ensures |slots| == 10
  {
    seq(10, n requires 0 <= n < 10 => SlotBytes(f, n))
  }

  function Sum(values: seq<nat>): nat {
    if values == [] then 0 else Sum(values[..|values| - 1]) + values[|values| - 1]
  }

  lemma {:induction false} SumUpdated(values: seq<nat>, n: nat, value: nat)
    requires n < |values|
    ensures Sum(values[n := value]) == Sum(values) - values[n] + value
  {
    var last := |values| - 1;
    if n < last {
      assert values[n := value][..last] == values[..last][n := value];
      SumUpdated(values[..last], n, value);
    } else {
      assert values[n := value][..last] == values[..last];
    }
  }

  lemma {:induction false} SumOfZeros(values: seq<nat>)
    requires forall n :: 0 <= n < |values| ==> values[n] == 0
    ensures Sum(values) == 0
  {
    if values != [] {
      SumOfZeros(values[..|values| - 1]);
    }
  }

  function FieldBytes(f: Fields): nat
    requires f.Valid()
  {
    Sum(Slots(f))
  }

  lemma LineBytes(name: string, value: string)
    ensures ByteLen(name + " " + value) == ByteLen(name) + 1 + ByteLen(value)
  {
    ByteLenAppend(name + " ", value);
    ByteLenAppend(name, " ");
    ByteLenAscii(" ");
  }

  /** A line changes one field, the one it names, ... */
  lemma TakeChangesOneSlot(f: Fields, line: string)
    requires f.Valid() && Take(f, line).Some?
    ensures var n := FieldOf(line[..Find(line, ' ')]);
            n < 10 && Slots(Take(f, line).value) == Slots(f)[n := SlotBytes(Take(f, line).value, n)]
  {
    var n, next := FieldOf(line[..Find(line, ' ')]), Take(f, line).value;
    forall k | 0 <= k < 10 && k != n
      ensures SlotBytes(next, k) == SlotBytes(f, k)
    {
    }
    assert Slots(next) == Slots(f)[n := SlotBytes(next, n)];
  }

  /** ... to something no longer to write than the line was to read. */
  lemma TakenSlotIsNoLonger(f: Fields, line: string)
    requires f.Valid() && Take(f, line).Some?
    ensures var n := FieldOf(line[..Find(line, ' ')]);
            n < 10 && SlotBytes(Take(f, line).value, n) <= ByteLen(line) + 1
  {
    var space := Find(line, ' ');
    var n, value := FieldOf(line[..space]), line[space + 1..];
    assert line == NAMES[n] + " " + value;
    LineBytes(NAMES[n], value);
    NamesAreWords(n);
    if n >= 4 {
      NumeralIsShortest(value);
      ByteLenAscii(value);
    }
  }

  lemma TakeBytes(f: Fields, line: string)
    requires f.Valid() && Take(f, line).Some?
    ensures FieldBytes(Take(f, line).value) <= FieldBytes(f) + ByteLen(line) + 1
  {
    var n := FieldOf(line[..Find(line, ' ')]);
    TakeChangesOneSlot(f, line);
    TakenSlotIsNoLonger(f, line);
    SumUpdated(Slots(f), n, SlotBytes(Take(f, line).value, n));
  }

  function LinesBytes(lines: seq<string>): nat {
    if lines == [] then 0 else LinesBytes(lines[..|lines| - 1]) + ByteLen(lines[|lines| - 1]) + 1
  }

  lemma {:induction false} TakeAllBytes(lines: seq<string>)
    requires TakeAll(lines).Some?
    ensures FieldBytes(TakeAll(lines).value) <= LinesBytes(lines)
  {
    if lines == [] {
      SumOfZeros(Slots(NOTHING));
    } else {
      TakeAllBytes(lines[..|lines| - 1]);
      var line := lines[|lines| - 1];
      if line != "" {
        TakeBytes(TakeAll(lines[..|lines| - 1]).value, line);
      }
    }
  }

  lemma {:induction false} LinesBytesFirst(line: string, lines: seq<string>)
    ensures LinesBytes([line] + lines) == ByteLen(line) + 1 + LinesBytes(lines)
  {
    var all := [line] + lines;
    if lines == [] {
      assert all[..0] == [];
    } else {
      assert all[..|all| - 1] == [line] + lines[..|lines| - 1];
      LinesBytesFirst(line, lines[..|lines| - 1]);
    }
  }

  lemma {:induction false} SplitBytes(text: string)
    ensures LinesBytes(Split(text, '\n')) == ByteLen(text) + 1
    decreases |text|
  {
    var index := Find(text, '\n');
    if index == |text| {
      assert [text][..0] == [];
    } else {
      var first, rest := text[..index], text[index + 1..];
      assert text == first + "\n" + rest;
      SplitBytes(rest);
      SplitFirst(first, '\n', rest);
      LinesBytesFirst(first, Split(rest, '\n'));
      BytesAroundLineEnd(first, rest);
    }
  }

  lemma BytesAroundLineEnd(line: string, rest: string)
    ensures ByteLen(line + "\n" + rest) == ByteLen(line) + 1 + ByteLen(rest)
  {
    ByteLenAppend(line + "\n", rest);
    ByteLenAppend(line, "\n");
    ByteLenAscii("\n");
  }

  lemma {:induction false} LinesFromBytes(f: Fields, values: seq<string>, n: nat)
    requires |values| == 10 && n <= 10 && f.Valid()
    requires forall k :: 0 <= k < 10 ==> SlotBytes(f, k) == |NAMES[k]| + 2 + ByteLen(values[k])
    ensures ByteLen(LinesFrom(values, n)) == Sum(Slots(f)) - Sum(Slots(f)[..n])
    decreases 10 - n
  {
    var slots := Slots(f);
    if n == 10 {
      assert slots[..10] == slots;
    } else {
      LinesFromBytes(f, values, n + 1);
      var line := NAMES[n] + " " + values[n];
      LineBytes(NAMES[n], values[n]);
      NamesAreWords(n);
      ByteLenAppend(line, "\n");
      ByteLenAscii("\n");
      ByteLenAppend(line + "\n", LinesFrom(values, n + 1));
      assert slots[..n + 1][..n] == slots[..n];
    }
  }

  lemma RecordSlot(f: Fields, k: nat)
    requires f.Valid() && ToRecord(f).Some? && k < 10
    requires f.numbers[4].value <= 1 && f.numbers[5].value <= 3
    ensures SlotBytes(f, k) == |NAMES[k]| + 2 + ByteLen(Values(ToRecord(f).value)[k])
  {
    if k >= 4 {
      assert f.numbers[k - 4].Some?;
      NumeralsAreOneLine(f.numbers[k - 4].value);
    } else {
      assert f.texts[k].Some?;
    }
  }

  lemma RecordLinesBytes(f: Fields)
    requires f.Valid() && ToRecord(f).Some?
    requires f.numbers[4].value <= 1 && f.numbers[5].value <= 3
    ensures ByteLen(LinesFrom(Values(ToRecord(f).value), 0)) == FieldBytes(f)
  {
    var values := Values(ToRecord(f).value);
    forall k | 0 <= k < 10
      ensures SlotBytes(f, k) == |NAMES[k]| + 2 + ByteLen(values[k])
    {
      RecordSlot(f, k);
    }
    LinesFromBytes(f, values, 0);
  }

  /** A record read from fields is written in exactly the bytes of those fields. */
  lemma RecordBytes(f: Fields)
    requires f.Valid() && ToRecord(f).Some?
    requires f.numbers[4].value <= 1 && f.numbers[5].value <= 3
    ensures ByteLen(Written(ToRecord(f).value)) == |META_MAGIC| + 1 + FieldBytes(f)
  {
    RecordLinesBytes(f);
    ByteLenAppend(Header(), LinesFrom(Values(ToRecord(f).value), 0));
    HeaderBytes();
  }

  lemma HeaderBytes()
    ensures ByteLen(Header()) == |META_MAGIC| + 1
  {
    ByteLenAscii(Header());
  }

  /** Whatever has been read is within its limits, and its texts are pieces of lines. */
  ghost predicate Bounded(f: Fields) {
    && f.Valid()
    && (forall k :: 0 <= k < 6 && f.numbers[k].Some? ==> f.numbers[k].value <= Limit(k))
    && (forall k :: 0 <= k < 4 && f.texts[k].Some? ==> '\n' !in f.texts[k].value)
  }

  lemma {:induction false} TakeAllIsBounded(lines: seq<string>)
    requires TakeAll(lines).Some? && forall i :: 0 <= i < |lines| ==> '\n' !in lines[i]
    ensures Bounded(TakeAll(lines).value)
  {
    if lines != [] {
      TakeAllIsBounded(lines[..|lines| - 1]);
    }
  }

  /** The other way round: a record read from any file that is accepted, whatever its line order,
      repeated lines, blank lines or leading zeros, is written back in at most one byte more than the
      file had. It encodes exactly when no text holds a carriage return and that stays within the
      limit, and then reads as the same record. */
  lemma ReadRecordsAreWritable(text: string)
    requires Decoded(text).Some?
    ensures var r := Decoded(text).value;
            && r.Valid() && r.key != "" && r.security <= 3
            && ByteLen(Written(r)) <= ByteLen(text) + 1
            && (Encoded(r).Some? <==>
                  '\r' !in r.key && '\r' !in r.etag && '\r' !in r.mediaType && '\r' !in r.charset
                  && ByteLen(Written(r)) <= MAX_CACHE_META_BYTES)
            && (Encoded(r).Some? ==> Decoded(Encoded(r).value) == Some(r))
  {
    ReadRecordsAreBounded(text);
    ReadRecordsAreShort(text);
    EncodesUnlessReturns(Decoded(text).value);
  }

  lemma EncodesUnlessReturns(r: Record)
    requires r.Valid() && r.key != "" && r.security <= 3
    requires '\n' !in r.key && '\n' !in r.etag && '\n' !in r.mediaType && '\n' !in r.charset
    ensures Encoded(r).Some? <==>
              '\r' !in r.key && '\r' !in r.etag && '\r' !in r.mediaType && '\r' !in r.charset
              && ByteLen(Written(r)) <= MAX_CACHE_META_BYTES
    ensures Encoded(r).Some? ==> Decoded(Encoded(r).value) == Some(r)
  {
    if Encoded(r).Some? {
      RoundTrip(r);
    }
  }

  lemma ReadRecordsAreBounded(text: string)
    requires Decoded(text).Some?
    ensures var r := Decoded(text).value;
            && r.Valid() && r.key != "" && r.security <= 3
            && '\n' !in r.key && '\n' !in r.etag && '\n' !in r.mediaType && '\n' !in r.charset
  {
    var lines := Split(text, '\n');
    TakeAllIsBounded(lines[1..]);
    BoundedRecord(TakeAll(lines[1..]).value);
  }

  lemma BoundedRecord(f: Fields)
    requires Bounded(f) && ToRecord(f).Some?
    ensures var r := ToRecord(f).value;
            && r.Valid() && r.key != "" && r.security <= 3
            && '\n' !in r.key && '\n' !in r.etag && '\n' !in r.mediaType && '\n' !in r.charset
    ensures f.numbers[4].value <= 1 && f.numbers[5].value <= 3
  {
    assert forall k :: 0 <= k < 6 ==> f.numbers[k].value <= Limit(k);
    assert forall k :: 0 <= k < 4 ==> '\n' !in f.texts[k].value;
  }

  lemma ReadRecordsAreShort(text: string)
    requires Decoded(text).Some?
    ensures ByteLen(Written(Decoded(text).value)) <= ByteLen(text) + 1
  {
    var lines := Split(text, '\n');
    var f := TakeAll(lines[1..]).value;
    TakeAllIsBounded(lines[1..]);
    BoundedRecord(f);
    RecordBytes(f);
    TakeAllBytes(lines[1..]);
    assert lines == [lines[0]] + lines[1..];
    LinesBytesFirst(lines[0], lines[1..]);
    SplitBytes(text);
    MagicIsOneLine();
  }

  // --- the loops --------------------------------------------------------------

  /** Builds the file line by line. */
  method Encode(r: Record) returns (file: Option<string>)
    requires r.Valid()
    ensures file == Encoded(r)
  {
    if !TextsAreOneLine(r) {
      return None;
    }
    ghost var values := Values(r);
    var out := EncodeTexts(Header(), [r.key, r.etag, r.mediaType, r.charset], values);
    out := EncodeNumbers(out,
        [r.bodyBytes, r.storedMs, r.expiresMs, r.usedMs, if r.revalidate then 1 else 0, r.security], values);
    assert out == Header() + LinesFrom(values, 0);
    file := if ByteLen(out) <= MAX_CACHE_META_BYTES then Some(out) else None;
  }

  method EncodeTexts(before: string, texts: seq<string>, ghost values: seq<string>) returns (out: string)
    requires |texts| == 4 && |values| == 10
    requires forall n :: 0 <= n < 4 ==> texts[n] == values[n]
    ensures out + LinesFrom(values, 4) == before + LinesFrom(values, 0)
  {
    out := before;
    for n := 0 to 4
      invariant out + LinesFrom(values, n) == before + LinesFrom(values, 0)
    {
      AppendLine(out, values, n);
      out := out + Line(NAMES[n], texts[n]);
    }
  }

  method EncodeNumbers(before: string, numbers: seq<nat>, ghost values: seq<string>) returns (out: string)
    requires |numbers| == 6 && |values| == 10
    requires forall n :: 0 <= n < 6 ==> numbers[n] < U64 && values[n + 4] == Numeral(numbers[n])
    ensures out == before + LinesFrom(values, 4)
  {
    out := before;
    for n := 0 to 6
      invariant out + LinesFrom(values, n + 4) == before + LinesFrom(values, 4)
    {
      AppendLine(out, values, n + 4);
      var digits := NumberText(numbers[n]);
      out := out + Line(NAMES[n + 4], digits);
    }
    assert out + "" == out;
  }

  lemma AppendLine(out: string, values: seq<string>, n: nat)
    requires |values| == 10 && n < 10
    ensures out + LinesFrom(values, n) == (out + Line(NAMES[n], values[n])) + LinesFrom(values, n + 1)
  {
  }

  /** Reads a file line by line, into a local for each field. */
  method Decode(text: string) returns (record: Option<Record>)
    ensures record == Decoded(text)
  {
    if ByteLen(text) > MAX_CACHE_META_BYTES {
      return None;
    }
    var lines := Split(text, '\n');
    if lines[0] != META_MAGIC {
      return None;
    }
    var fields := DecodeLines(lines[1..]);
    match fields {
      case None => record := None;
      case Some(f) => record := ToRecord(f);
    }
  }

  method DecodeLines(lines: seq<string>) returns (fields: Option<Fields>)
    ensures fields == TakeAll(lines)
  {
    var f := NOTHING;
    for i := 0 to |lines|
      invariant TakeAll(lines[..i]) == Some(f)
    {
      assert lines[..i + 1] == lines[..i] + [lines[i]];
      LastLineTaken(lines[..i], lines[i]);
      if lines[i] != "" {
        var next := DecodeLine(f, lines[i]);
        if next == None {
          RefusedLineEnds(lines, i + 1);
          return None;
        }
        f := next.value;
      }
    }
    assert lines[..|lines|] == lines;
    fields := Some(f);
  }

  method DecodeLine(f: Fields, line: string) returns (next: Option<Fields>)
    requires f.Valid()
    ensures next == Take(f, line)
  {
    var space := Find(line, ' ');
    if space == |line| {
      return None;
    }
    FieldsByName();
    NobodysName(line[..space]);
    var value := line[space + 1..];
    var number := Number(value);
    match line[..space] {
      case "key" => next := Some(f.(texts := f.texts[0 := Some(value)]));
      case "etag" => next := Some(f.(texts := f.texts[1 := Some(value)]));
      case "type" => next := Some(f.(texts := f.texts[2 := Some(value)]));
      case "charset" => next := Some(f.(texts := f.texts[3 := Some(value)]));
      case "bytes" => next := if number.Some? then Some(f.(numbers := f.numbers[0 := number])) else None;
      case "stored" => next := if number.Some? then Some(f.(numbers := f.numbers[1 := number])) else None;
      case "expires" => next := if number.Some? then Some(f.(numbers := f.numbers[2 := number])) else None;
      case "used" => next := if number.Some? then Some(f.(numbers := f.numbers[3 := number])) else None;
      case "revalidate" => next := if number.Some? && number.value <= 1
          then Some(f.(numbers := f.numbers[4 := number])) else None;
      case "security" => next := if number.Some? && number.value <= 3 then Some(f.(numbers := f.numbers[5 := number]))
          else None;
      case _ => next := None;
    }
  }

  /** One refused line refuses the file. */
  lemma {:induction false} RefusedLineEnds(lines: seq<string>, i: nat)
    requires i <= |lines| && TakeAll(lines[..i]) == None
    ensures TakeAll(lines) == None
  {
    if i == |lines| {
      assert lines[..i] == lines;
    } else {
      assert lines[..i] == lines[..|lines| - 1][..i];
      RefusedLineEnds(lines[..|lines| - 1], i);
    }
  }
}
