/**
Whitespace in running text. Text arrives cut into arbitrary pieces; what is
kept depends on the characters alone.
*/
module TextFlow {
  import opened DocumentTypes
  import opened Basics

  /** Text kept so far, whether a space is owed before the next word, and whether the place is one
      where no space is due. */
  datatype Flow = Flow(out: Text, pending: bool, atStart: bool)

  /** Pays the owed space. */
  function Flush(f: Flow): Flow {
    if !f.pending then f
    else if f.atStart then f.(pending := false)
    else f.(pending := false, out := f.out + [SPACE])
  }

  /** One character of running text. */
  function Add(f: Flow, c: char): Flow {
    if IsAsciiWhitespace(c) then f.(pending := true)
    else Flow(Flush(f).out + Utf8(c), false, false)
  }

  /** One character of preformatted text: kept as written, but for carriage returns and tabs. */
  function AddVerbatim(f: Flow, c: char): Flow {
    if c == '\r' then f
    else f.(out := f.out + Utf8(if c == '\t' then ' ' else c), atStart := false)
  }

  /** One character of an option's or a button's text: collapsed, and empty until its first word. */
  function AddCaption(f: Flow, c: char): Flow {
    if IsWhitespace(c) then f.(pending := f.pending || f.out != [])
    else f.(out := f.out + (if f.pending then [SPACE] else []) + Utf8(c), pending := false)
  }

  /** One character of a textarea: kept, with every line end as one LF, the first one dropped, and
      nothing after the first character that does not fit. */
  function AddToTextarea(t: TextareaBuild, c: char): TextareaBuild {
    var seen := t.(afterCr := c == '\r');
    if c == '\n' && t.afterCr then seen
    else
      var kept := if c == '\r' then '\n' else c;
      var begun := seen.(atStart := false);
      if t.atStart && kept == '\n' then begun
      else if t.overflow || |t.text| + |Utf8(kept)| > MAX_INPUT_VALUE_BYTES then begun.(overflow := true)
      else begun.(text := t.text + Utf8(kept))
  }

  /** A text taken in one character after another. */
  function Fold<S>(step: (S, char) -> S, state: S, text: string): S {
    if text == "" then state else step(Fold(step, state, text[..|text| - 1]), text[|text| - 1])
  }

  function Step(f: Flow, pre: bool, c: char): Flow {
    if pre then AddVerbatim(f, c) else Add(f, c)
  }

  function Pour(f: Flow, pre: bool, text: string): Flow {
    Fold(if pre then AddVerbatim else Add, f, text)
  }

  /** It makes no difference where a text was cut, whatever is done with its characters. */
  lemma {:induction false} CutsDoNotMatter<S>(step: (S, char) -> S, state: S, a: string, b: string)
    ensures Fold(step, state, a + b) == Fold(step, Fold(step, state, a), b)
  {
    if b == "" {
      assert a + b == a;
    } else {
      assert (a + b)[..|a + b| - 1] == a + b[..|b| - 1];
      CutsDoNotMatter(step, state, a, b[..|b| - 1]);
    }
  }

  /** Text only grows, so a limit crossed by a prefix is crossed by the whole. */
  lemma {:induction false} PourAppends(f: Flow, pre: bool, text: string, more: string)
    ensures Pour(f, pre, text).out <= Pour(f, pre, text + more).out
  {
    if more == "" {
      assert text + more == text;
    } else {
      assert (text + more)[..|text + more| - 1] == text + more[..|more| - 1];
      PourAppends(f, pre, text, more[..|more| - 1]);
    }
  }

  /** A place where no space is due remains one while nothing is kept. */
  lemma {:induction false} PourKeepsStart(f: Flow, pre: bool, text: string)
    ensures f.out <= Pour(f, pre, text).out
    ensures Pour(f, pre, text).out == f.out ==> Pour(f, pre, text).atStart == f.atStart
  {
    if text != "" {
      PourKeepsStart(f, pre, text[..|text| - 1]);
    }
  }

  lemma PourOneMore(f: Flow, pre: bool, text: string, i: nat)
    requires i < |text|
    ensures Pour(f, pre, text[..i + 1]) == Step(Pour(f, pre, text[..i]), pre, text[i])
    ensures |Pour(f, pre, text[..i + 1]).out| <= |Pour(f, pre, text).out|
  {
    assert text[..i + 1][..i] == text[..i];
    assert text[..i + 1] + text[i + 1..] == text;
    PourAppends(f, pre, text[..i + 1], text[i + 1..]);
  }

  lemma {:induction false} CaptionAppends(f: Flow, text: string, more: string)
    ensures Fold(AddCaption, f, text).out <= Fold(AddCaption, f, text + more).out
  {
    if more == "" {
      assert text + more == text;
    } else {
      assert (text + more)[..|text + more| - 1] == text + more[..|more| - 1];
      CaptionAppends(f, text, more[..|more| - 1]);
    }
  }

  lemma CaptionOneMore(f: Flow, text: string, i: nat)
    requires i < |text|
    ensures Fold(AddCaption, f, text[..i + 1]) == AddCaption(Fold(AddCaption, f, text[..i]), text[i])
    ensures |Fold(AddCaption, f, text[..i + 1]).out| <= |Fold(AddCaption, f, text).out|
  {
    assert text[..i + 1][..i] == text[..i];
    assert text[..i + 1] + text[i + 1..] == text;
    CaptionAppends(f, text[..i + 1], text[i + 1..]);
  }

  // --- what running text looks like -----------------------------------------

  /** The last word with one more character. */
  function OneMore(words: seq<string>, c: char): seq<string>
    requires words != []
  {
    words[..|words| - 1] + [words[|words| - 1] + [c]]
  }

  /** The maximal stretches of a text that hold no whitespace. */
  function Words(text: string, isSpace: char -> bool := IsAsciiWhitespace): seq<string> {
    if text == "" then []
    else
      var init, c := text[..|text| - 1], text[|text| - 1];
      var words := Words(init, isSpace);
      if isSpace(c) then words
      else if init != "" && !isSpace(init[|init| - 1]) && words != [] then OneMore(words, c)
      else words + [[c]]
  }

  /** Words with one space between them. */
  function Join(words: seq<string>): Text {
    if words == [] then []
    else if |words| == 1 then Encode(words[0])
    else Join(words[..|words| - 1]) + [SPACE] + Encode(words[|words| - 1])
  }

  /** What stands before the last word. */
  function Lead(words: seq<string>): Text {
    if words == [] then [] else Join(words) + [SPACE]
  }

  lemma JoinOfLast(words: seq<string>, word: string)
    ensures Join(words + [word]) == Lead(words) + Encode(word)
  {
    assert (words + [word])[..|words|] == words;
    if words == [] {
      assert [] + Encode(word) == Encode(word);
    }
  }

  lemma Regroup(a: Text, b: Text, c: Text)
    ensures a + (b + c) == (a + b) + c
  {
  }

  lemma LastWordGrows(words: seq<string>, c: char)
    requires words != []
    ensures Join(OneMore(words, c)) == Join(words) + Utf8(c)
  {
    var first, last := words[..|words| - 1], words[|words| - 1];
    assert words == first + [last];
    JoinOfLast(first, last + [c]);
    JoinOfLast(first, last);
    EncodeAppend(last, c);
    Regroup(Lead(first), Encode(last), Utf8(c));
  }

  lemma WordStarts(words: seq<string>, c: char)
    ensures Join(words + [[c]]) == Lead(words) + Utf8(c)
  {
    JoinOfLast(words, [c]);
    EncodeAppend([], c);
    assert [] + [c] == [c] && Encode([]) + Utf8(c) == Utf8(c);
  }

  /** From the start of a block, running text is its words separated by single spaces, however they
      were spaced and broken over lines. */
  lemma {:induction false} RunningTextIsItsWords(text: string)
    ensures var f := Pour(Flow([], false, true), false, text);
            && f.out == Join(Words(text))
            && (f.atStart <==> Words(text) == [])
            && (f.pending <==> text != "" && IsAsciiWhitespace(text[|text| - 1]))
  {
    if text != "" {
      var init, c := text[..|text| - 1], text[|text| - 1];
      var words := Words(init);
      RunningTextIsItsWords(init);
      if !IsAsciiWhitespace(c) {
        if init != "" && !IsAsciiWhitespace(init[|init| - 1]) {
          LastWordGrows(words, c);
        } else {
          WordStarts(words, c);
        }
      }
    }
  }

  /** What is kept of a text does not depend on what stands before it, once a word may follow. */
  lemma {:induction false} PourShift(before: Text, pending: bool, pre: bool, text: string)
    ensures var f, g := Pour(Flow(before, pending, false), pre, text), Pour(Flow([], pending, false), pre, text);
            f == g.(out := before + g.out) && !g.atStart
  {
    if text != "" {
      PourShift(before, pending, pre, text[..|text| - 1]);
    }
  }

  /** Running text that starts with a word is its words, also where a space would be due. */
  lemma WordsAnywhere(text: string)
    requires text != "" && !IsAsciiWhitespace(text[0])
    ensures Pour(Flow([], false, false), false, text).out == Join(Words(text))
  {
    var first, rest := [text[0]], text[1..];
    assert text == first + rest && first[..0] == "";
    CutsDoNotMatter(Add, Flow([], false, false), first, rest);
    CutsDoNotMatter(Add, Flow([], false, true), first, rest);
    RunningTextIsItsWords(text);
  }

  /** What is between the text that was there and the words that come: a space, if whitespace parts them. */
  function Part(f: Flow, text: string): Text {
    if Words(text) != [] && !f.atStart && (f.pending || IsAsciiWhitespace(text[0])) then [SPACE] else []
  }

  /** Wherever running text comes, it adds its words with single spaces between them, parted from what was there
      by one space if whitespace parts them and a word is there; whitespace behind the last word is owed. */
  lemma {:induction false} RunningTextAddsItsWords(f: Flow, text: string)
    ensures var g := Pour(f, false, text);
            && g.out == f.out + Part(f, text) + Join(Words(text))
            && (g.atStart <==> f.atStart && Words(text) == [])
            && (g.pending <==> if text == "" then f.pending else IsAsciiWhitespace(text[|text| - 1]))
  {
    if text != "" {
      var init, c := text[..|text| - 1], text[|text| - 1];
      RunningTextAddsItsWords(f, init);
      NoWordsNoText(init);
      var g, words := Pour(f, false, init), Words(init);
      if !IsAsciiWhitespace(c) {
        if init != "" && !IsAsciiWhitespace(init[|init| - 1]) {
          AddGrows(g, f.out + Part(f, init), words, c);
        } else if words == [] {
          AddFirst(g, f.out, c);
        } else {
          AddNext(g, f.out + Part(f, init), words, c);
        }
      }
      assert init != "" ==> init[0] == text[0];
    }
  }

  lemma {:induction false} NoWordsNoText(text: string)
    ensures Words(text) == [] <==> forall i :: 0 <= i < |text| ==> IsAsciiWhitespace(text[i])
  {
    if text != "" {
      NoWordsNoText(text[..|text| - 1]);
    }
  }

  lemma AddGrows(g: Flow, before: Text, words: seq<string>, c: char)
    requires !IsAsciiWhitespace(c) && !g.pending && words != [] && g.out == before + Join(words)
    ensures Add(g, c).out == before + Join(OneMore(words, c))
  {
    GrownWord(before, words, c, g.out);
  }

  lemma AddFirst(g: Flow, before: Text, c: char)
    requires !IsAsciiWhitespace(c) && g.out == before + [] + []
    ensures Add(g, c).out == before + (if g.pending && !g.atStart then [SPACE] else []) + Join([] + [[c]])
  {
    FirstWord(before + (if g.pending && !g.atStart then [SPACE] else []), c);
    assert before + [] + [] == before && before + [] == before;
  }

  lemma AddNext(g: Flow, before: Text, words: seq<string>, c: char)
    requires !IsAsciiWhitespace(c) && g.pending && !g.atStart && words != [] && g.out == before + Join(words)
    ensures Add(g, c).out == before + Join(words + [[c]])
  {
    NextWord(before, words, c, g.out);
  }

  lemma GrownWord(before: Text, words: seq<string>, c: char, out: Text)
    requires words != [] && out == before + Join(words)
    ensures out + Utf8(c) == before + Join(OneMore(words, c))
  {
    LastWordGrows(words, c);
    Regroup(before, Join(words), Utf8(c));
  }

  lemma FirstWord(before: Text, c: char)
    ensures before + Utf8(c) == before + Join([] + [[c]])
  {
    WordStarts([], c);
    assert [] + Utf8(c) == Utf8(c);
  }

  lemma NextWord(before: Text, words: seq<string>, c: char, out: Text)
    requires words != [] && out == before + Join(words)
    ensures out + [SPACE] + Utf8(c) == before + Join(words + [[c]])
  {
    WordStarts(words, c);
    Regroup(before, Join(words), [SPACE]);
    Regroup(before, Join(words) + [SPACE], Utf8(c));
  }

  // --- text kept as it is written ---------------------------------------------

  /** Without carriage returns, and with spaces for tabs. */
  function KeptInPre(text: string): string {
    if text == "" then ""
    else
      var kept, c := KeptInPre(text[..|text| - 1]), text[|text| - 1];
      if c == '\r' then kept else kept + [if c == '\t' then ' ' else c]
  }

  lemma {:induction false} PlainTextIsKept(text: string)
    requires '\r' !in text && '\t' !in text
    ensures KeptInPre(text) == text
  {
    if text != "" {
      PlainTextIsKept(text[..|text| - 1]);
    }
  }

  /** Preformatted text is kept, character by character. */
  lemma {:induction false} PreKeepsText(f: Flow, text: string)
    ensures var g := Pour(f, true, text); g.out == f.out + Encode(KeptInPre(text)) && g.pending == f.pending
  {
    if text != "" {
      var init, c := text[..|text| - 1], text[|text| - 1];
      PreKeepsText(f, init);
      if c != '\r' {
        var kept := if c == '\t' then ' ' else c;
        EncodeAppend(KeptInPre(init), kept);
        Regroup(f.out, Encode(KeptInPre(init)), Utf8(kept));
      }
    }
  }

  // --- text of options, buttons and textareas ---------------------------------

  /** An option's or a button's text is its words separated by single spaces, for any of Unicode's whitespace. */
  lemma {:induction false} CaptionIsItsWords(text: string)
    ensures var f := Fold(AddCaption, Flow([], false, false), text);
            && f.out == Join(Words(text, IsWhitespace)) && (f.out == [] <==> Words(text, IsWhitespace) == [])
            && (f.pending <==> Words(text, IsWhitespace) != [] && IsWhitespace(text[|text| - 1]))
  {
    if text != "" {
      var init, c := text[..|text| - 1], text[|text| - 1];
      var words := Words(init, IsWhitespace);
      CaptionIsItsWords(init);
      var f := Fold(AddCaption, Flow([], false, false), init);
      if !IsWhitespace(c) {
        if words == [] {
          CaptionFirst(f, c);
        } else if IsWhitespace(init[|init| - 1]) {
          CaptionNext(f, words, c);
        } else {
          CaptionGrows(f, words, c);
        }
      }
    }
  }

  lemma CaptionGrows(f: Flow, words: seq<string>, c: char)
    requires !IsWhitespace(c) && !f.pending && words != [] && f.out == Join(words)
    ensures AddCaption(f, c).out == Join(OneMore(words, c))
  {
    LastWordGrows(words, c);
    assert f.out + [] == f.out;
  }

  lemma CaptionFirst(f: Flow, c: char)
    requires !IsWhitespace(c) && !f.pending && f.out == []
    ensures AddCaption(f, c).out == Join([] + [[c]])
  {
    FirstWord([], c);
    NothingBefore(Join([] + [[c]]));
  }

  lemma CaptionNext(f: Flow, words: seq<string>, c: char)
    requires !IsWhitespace(c) && f.pending && words != [] && f.out == Join(words)
    ensures AddCaption(f, c).out == Join(words + [[c]])
  {
    NothingBefore(f.out);
    NextWord([], words, c, f.out);
    NothingBefore(Join(words + [[c]]));
  }

  lemma NothingBefore(text: Text)
    ensures [] + text == text
  {
  }

  /** Every line end as one LF. */
  function LineEnds(text: string): string {
    if text == "" then ""
    else
      var init, c := text[..|text| - 1], text[|text| - 1];
      if c == '\n' && init != "" && init[|init| - 1] == '\r' then LineEnds(init)
      else LineEnds(init) + [if c == '\r' then '\n' else c]
  }

  /** What a textarea holds: its text with LF line ends, but for one at its start. */
  function TextareaText(text: string): string {
    var lines := LineEnds(text);
    if lines != "" && lines[0] == '\n' then lines[1..] else lines
  }

  lemma LineEndsGrow(init: string, c: char)
    ensures LineEnds(init + [c])
         == if c == '\n' && init != "" && init[|init| - 1] == '\r' then LineEnds(init)
            else LineEnds(init) + [if c == '\r' then '\n' else c]
  {
    assert (init + [c])[..|init|] == init;
  }

  lemma TextareaGrows(init: string, c: char)
    ensures var all, more := TextareaText(init), TextareaText(init + [c]);
            if c == '\n' && init != "" && init[|init| - 1] == '\r' then more == all
            else if init == "" && (c == '\n' || c == '\r') then all == more == ""
            else more == all + [if c == '\r' then '\n' else c]
  {
    LineEndsGrow(init, c);
    if init != "" {
      LineEndsAreSome(init);
    }
  }

  lemma {:induction false} LineEndsAreSome(text: string)
    requires text != ""
    ensures LineEnds(text) != ""
  {
    if |text| > 1 {
      LineEndsAreSome(text[..|text| - 1]);
    }
  }

  /** A textarea keeps that text, or a beginning of it when it is too long, and says so. */
  predicate Taken(t: TextareaBuild, control: nat, text: string) {
    && t.control == control && (t.atStart <==> text == "")
    && (t.afterCr <==> text != "" && text[|text| - 1] == '\r')
    && t.text <= Encode(TextareaText(text)) && (!t.overflow ==> t.text == Encode(TextareaText(text)))
    && (t.overflow <==> |Encode(TextareaText(text))| > MAX_INPUT_VALUE_BYTES)
  }

  lemma TextareaTakes(t: TextareaBuild, control: nat, text: string, c: char)
    requires Taken(t, control, text)
    ensures Taken(AddToTextarea(t, c), control, text + [c])
  {
    TextareaGrows(text, c);
    EncodeAppend(TextareaText(text), if c == '\r' then '\n' else c);
  }

  lemma {:induction false} TextareaKeeps(control: nat, text: string)
    ensures Taken(Fold(AddToTextarea, TextareaBuild(control, [], true, false, false), text), control, text)
  {
    if text != "" {
      var init, c := text[..|text| - 1], text[|text| - 1];
      TextareaKeeps(control, init);
      assert text == init + [c];
      TextareaTakes(Fold(AddToTextarea, TextareaBuild(control, [], true, false, false), init), control, init, c);
    }
  }

  // --- no doubled spaces --------------------------------------------------------

  /** Between `start` and `end` a space follows no space and no line break, and precedes no line break. */
  ghost predicate Collapsed(text: Text, start: nat, end: nat)
    requires end <= |text|
    decreases end
  {
    start + 1 < end ==>
      && (text[end - 1] == SPACE ==> text[end - 2] != SPACE && text[end - 2] != NEWLINE)
      && (text[end - 1] == NEWLINE ==> text[end - 2] != SPACE)
      && Collapsed(text, start, end - 1)
  }

  lemma {:induction false} CollapsedKept(text: Text, more: Text, start: nat, end: nat)
    requires end <= |text| <= |more| && more[..|text|] == text && Collapsed(text, start, end)
    ensures Collapsed(more, start, end)
    decreases end
  {
    if start + 1 < end {
      assert more[end - 1] == more[..|text|][end - 1] && more[end - 2] == more[..|text|][end - 2];
      CollapsedKept(text, more, start, end - 1);
    }
  }

  lemma {:induction false} HighBytesCollapse(text: Text, start: nat, from: nat, end: nat)
    requires from <= end <= |text| && Collapsed(text, start, from)
    requires forall i :: from <= i < end ==> text[i] >= 0x80
    ensures Collapsed(text, start, end)
    decreases end
  {
    if from < end {
      HighBytesCollapse(text, start, from, end - 1);
    }
  }

  /** Appending one character keeps that, unless it is a space or break in the wrong place. */
  lemma CollapsedGrows(text: Text, start: nat, c: char)
    requires start <= |text| && Collapsed(text, start, |text|)
    requires start < |text| && c == ' ' ==> text[|text| - 1] != SPACE && text[|text| - 1] != NEWLINE
    requires start < |text| && c == '\n' ==> text[|text| - 1] != SPACE
    ensures Collapsed(text + Utf8(c), start, |text| + |Utf8(c)|)
  {
    var longer := text + Utf8(c);
    CollapsedKept(text, longer, start, |text|);
    if c as int >= 0x80 {
      HighBytesCollapse(longer, start, |text|, |longer|);
    }
  }
}
