/** Integers, bytes and characters as the program's standard library has them. */
module Basics {
  import opened Wrappers

  function Min(a: int, b: int): int {
    if a < b then a else b
  }

  function Max(a: int, b: int): int {
    if a > b then a else b
  }

  type Byte = b: nat | b < 256

  /** How many bytes a character takes in UTF-8. */
  function CharBytes(c: char): (bytes: nat)
    ensures 1 <= bytes <= 4
  {
    if c < '\U{80}' then 1 else if c < '\U{800}' then 2 else if c < '\U{10000}' then 3 else 4
  }

  function Utf8(c: char): (bytes: seq<Byte>)
    ensures |bytes| == CharBytes(c)
  {
    var n := c as int;
    if n < 0x80 then [n]
    else if n < 0x800 then [0xC0 + n / 0x40, 0x80 + n % 0x40]
    else if n < 0x10000 then [0xE0 + n / 0x1000, 0x80 + n / 0x40 % 0x40, 0x80 + n % 0x40]
    else [0xF0 + n / 0x40000, 0x80 + n / 0x1000 % 0x40, 0x80 + n / 0x40 % 0x40, 0x80 + n % 0x40]
  }

  function Encode(text: string): seq<Byte> {
    if text == "" then [] else Encode(text[..|text| - 1]) + Utf8(text[|text| - 1])
  }

  lemma EncodeAppend(text: string, c: char)
    ensures Encode(text + [c]) == Encode(text) + Utf8(c)
  {
    assert (text + [c])[..|text|] == text;
  }

  lemma {:induction false} EncodeJoins(a: string, b: string)
    ensures Encode(a + b) == Encode(a) + Encode(b)
  {
    if b == "" {
      assert a + b == a;
    } else {
      var init := b[..|b| - 1];
      assert (a + b)[..|a + b| - 1] == a + init;
      EncodeJoins(a, init);
    }
  }

  // --- where characters begin -------------------------------------------------

  /** A byte that goes on with a character. */
  predicate IsContinuation(b: Byte) {
    0x80 <= b < 0xC0
  }

  /** The number a character's bytes stand for. */
  function Utf8Value(bytes: seq<Byte>): int
    requires 1 <= |bytes| <= 4
  {
    match |bytes|
    case 1 => bytes[0]
    case 2 => (bytes[0] as int - 0xC0) * 0x40 + (bytes[1] as int - 0x80)
    case 3 => ((bytes[0] as int - 0xE0) * 0x40 + (bytes[1] as int - 0x80)) * 0x40 + (bytes[2] as int - 0x80)
    case _ => (((bytes[0] as int - 0xF0) * 0x40 + (bytes[1] as int - 0x80)) * 0x40 + (bytes[2] as int - 0x80)) * 0x40
              + (bytes[3] as int - 0x80)
  }

  /** Only a character's first byte is not a continuation. */
  lemma Utf8Shape(c: char)
    ensures !IsContinuation(Utf8(c)[0]) && forall i :: 1 <= i < |Utf8(c)| ==> IsContinuation(Utf8(c)[i])
  {
  }

  /** A character's bytes give it back. */
  lemma Utf8GivesBack(c: char)
    ensures Utf8Value(Utf8(c)) == c as int
  {
    var n := c as int;
    Sixths(n);
    Sixths(n / 0x40);
  }

  lemma Sixths(n: nat)
    ensures n / 0x1000 == n / 0x40 / 0x40 && n / 0x40000 == n / 0x1000 / 0x40 && n == n / 0x40 * 0x40 + n % 0x40
  {
  }

  /** A character begins at byte `i`, or the text ends there. */
  ghost predicate IsBoundary(text: string, i: nat) {
    exists k: nat :: k <= |text| && |Encode(text[..k])| == i
  }

  /** Characters begin exactly where there is no continuation byte. */
  lemma {:induction false} BoundariesShow(text: string, i: nat)
    requires i <= |Encode(text)|
    ensures IsBoundary(text, i) <==> i == |Encode(text)| || !IsContinuation(Encode(text)[i])
  {
    assert text[..|text|] == text;
    if text == "" {
      assert |Encode(text[..0])| == 0;
    } else {
      var init, c := text[..|text| - 1], text[|text| - 1];
      Utf8Shape(c);
      forall k: nat | k < |text|
        ensures text[..k] == init[..k] && |Encode(text[..k])| <= |Encode(init)|
      {
        PrefixEncodes(init, k);
      }
      if i < |Encode(init)| {
        BoundariesShow(init, i);
        if IsBoundary(init, i) {
          var k: nat :| k <= |init| && |Encode(init[..k])| == i;
          assert |Encode(text[..k])| == i;
        }
      } else if i == |Encode(init)| {
        assert |Encode(text[..|init|])| == i;
      }
    }
  }

  lemma {:induction false} PrefixEncodes(text: string, k: nat)
    requires k <= |text|
    ensures Encode(text[..k]) <= Encode(text)
  {
    assert text == text[..k] + text[k..];
    EncodeJoins(text[..k], text[k..]);
  }

  /** An ASCII byte is a character of its own. */
  lemma {:induction false} AsciiStandsAlone(text: string, i: nat)
    requires i < |Encode(text)| && Encode(text)[i] < 0x80
    ensures IsBoundary(text, i) && IsBoundary(text, i + 1)
  {
    BoundariesShow(text, i);
    var init, c := text[..|text| - 1], text[|text| - 1];
    Utf8Shape(c);
    if i < |Encode(init)| {
      AsciiStandsAlone(init, i);
      var k: nat :| k <= |init| && |Encode(init[..k])| == i + 1;
      assert init[..k] == text[..k];
    } else {
      assert i == |Encode(init)| && |Utf8(c)| == 1;
      assert text[..|text|] == text;
    }
  }

  /** No two texts have the same bytes. */
  lemma {:induction false} EncodingIsUnique(a: string, b: string)
    requires Encode(a) == Encode(b)
    ensures a == b
  {
    if a != "" && b != "" {
      var c, d := a[|a| - 1], b[|b| - 1];
      var x, y := Encode(a[..|a| - 1]), Encode(b[..|b| - 1]);
      Utf8Shape(c);
      Utf8Shape(d);
      Utf8GivesBack(c);
      Utf8GivesBack(d);
      SameCut(x, Utf8(c), y, Utf8(d));
      EncodingIsUnique(a[..|a| - 1], b[..|b| - 1]);
      assert c as int == d as int;
      assert a == a[..|a| - 1] + [c] && b == b[..|b| - 1] + [d];
    }
  }

  /** All but the first byte. */
  predicate GoesOn(bytes: seq<Byte>) {
    forall i :: 1 <= i < |bytes| ==> IsContinuation(bytes[i])
  }

  lemma AfterCut(x: seq<Byte>, u: seq<Byte>)
    requires GoesOn(u)
    ensures forall i :: |x| < i < |x + u| ==> IsContinuation((x + u)[i])
  {
  }

  lemma SameCut(x: seq<Byte>, u: seq<Byte>, y: seq<Byte>, v: seq<Byte>)
    requires x + u == y + v && u != [] && v != []
    requires !IsContinuation(u[0]) && GoesOn(u) && !IsContinuation(v[0]) && GoesOn(v)
    ensures x == y && u == v
  {
    var all := x + u;
    AfterCut(x, u);
    AfterCut(y, v);
    assert all[|x|] == u[0] && all[|y|] == v[0];
    assert |x| == |y|;
    assert x == all[..|x|] == y && u == all[|x|..] == v;
  }

  /** The text whose bytes these are, if there is one. */
  ghost function FromUtf8(bytes: seq<Byte>): (text: Option<string>)
    ensures text.Some? ==> Encode(text.value) == bytes
    ensures text.None? ==> forall t :: Encode(t) != bytes
  {
    if t :| Encode(t) == bytes then Some(t) else None
  }

  /** Each byte as the character with its number: what a text looks like byte by byte. */
  function Bytewise(bytes: seq<Byte>): (text: string)
    ensures |text| == |bytes|
  {
    seq(|bytes|, i requires 0 <= i < |bytes| => bytes[i] as char)
  }

  predicate IsAscii(text: string) {
    forall i :: 0 <= i < |text| ==> text[i] < '\U{80}'
  }

  /** An ASCII text looks like itself, and nothing else looks like it. */
  lemma {:induction false} AsciiIsBytewise(text: string)
    requires IsAscii(text)
    ensures Bytewise(Encode(text)) == text
  {
    if text != "" {
      AsciiIsBytewise(text[..|text| - 1]);
    }
  }

  lemma OnlyItselfLooksAscii(text: string, ascii: string)
    requires IsAscii(ascii) && Bytewise(Encode(text)) == ascii
    ensures text == ascii
  {
    AsciiIsBytewise(ascii);
    var a, b := Encode(text), Encode(ascii);
    forall i | 0 <= i < |a|
      ensures a[i] == b[i]
    {
      assert Bytewise(a)[i] == Bytewise(b)[i];
    }
    assert a == b;
    EncodingIsUnique(text, ascii);
  }

  /** Unicode's White_Space. */
  predicate IsWhitespace(c: char) {
    || '\t' <= c <= '\r' || c == ' ' || c == '\U{85}' || c == '\U{A0}' || c == '\U{1680}'
    || '\U{2000}' <= c <= '\U{200A}' || c in {'\U{2028}', '\U{2029}', '\U{202F}', '\U{205F}', '\U{3000}'}
  }

  function Trim(text: string): (trimmed: string)
    ensures trimmed != "" ==> !IsWhitespace(trimmed[0]) && !IsWhitespace(trimmed[|trimmed| - 1])
  {
    if text == "" then text
    else if IsWhitespace(text[0]) then Trim(text[1..])
    else if IsWhitespace(text[|text| - 1]) then Trim(text[..|text| - 1])
    else text
  }
}
