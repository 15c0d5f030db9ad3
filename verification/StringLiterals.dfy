/** The value of a string literal: ParseStringLiteral and its helpers in
    assembler/assembly-parser.cpp. */
module StringLiterals {
  import opened Options
  import opened LexerModel

  // ----- escapes -----

  predicate IsOctal(c: char) { '0' <= c <= '7' }

  predicate IsHex(c: char) { '0' <= c <= '9' || 'A' <= c <= 'F' || 'a' <= c <= 'f' }

  function FromHex(c: char): (n: nat)
    requires IsHex(c)
    ensures n < 16
  {
    if '0' <= c <= '9' then c as int - '0' as int
    else if 'A' <= c <= 'F' then c as int - 'A' as int + 10
    else c as int - 'a' as int + 10
  }

  function FromOctal(c: char): (n: nat)
    requires IsOctal(c)
    ensures n < 8
  {
    c as int - '0' as int
  }

  predicate AllOctal(s: string) { forall k :: 0 <= k < |s| ==> IsOctal(s[k]) }

  /** The number that octal digits stand for. */
  function OctalValue(s: string): nat
    requires AllOctal(s)
  {
    if s == [] then 0 else OctalValue(s[..|s| - 1]) * 8 + FromOctal(s[|s| - 1])
  }

  /** A number kept in a char. */
  function Byte(n: nat): char { (n % 256) as char }

  const OCTAL_DIGITS := 3

  /** How many octal digits s begins with, at most limit. */
  function OctalLength(s: string, limit: nat): (n: nat)
    ensures n <= |s| && n <= limit && AllOctal(s[..n])
  {
    if limit == 0 || s == [] || !IsOctal(s[0]) then 0
    else
      var n := OctalLength(s[1..], limit - 1);
      assert s[..n + 1] == [s[0]] + s[1..][..n];
      n + 1
  }

  lemma {:induction false} OctalLengthIs(s: string, limit: nat, n: nat)
    requires n <= |s| && n <= limit && AllOctal(s[..n]) && (n == limit || n == |s| || !IsOctal(s[n]))
    ensures OctalLength(s, limit) == n
  {
    if n > 0 {
      assert s[..n][0] == s[0];
      assert s[1..][..n - 1] == s[..n][1..];
      OctalLengthIs(s[1..], limit - 1, n - 1);
    }
  }

  function SimpleEscape(c: char): Option<char> {
    if c == '\'' || c == QUOTE || c == BACKSLASH then Some(c)
    else if c == 'a' then Some(Byte(7))
    else if c == 'b' then Some(Byte(8))
    else if c == 'f' then Some(Byte(12))
    else if c == 'n' then Some(Byte(10))
    else if c == 'r' then Some(Byte(13))
    else if c == 't' then Some(Byte(9))
    else if c == 'v' then Some(Byte(11))
    else None
  }

  // ----- what a literal is made of -----

  /** A character, or one escape: a letter, one to three octal digits, or x and two hex digits. */
  datatype Item = Char(c: char) | Simple(c: char) | Octal(digits: string) | Hex(a: char, b: char)

  predicate GoodItem(item: Item) {
    match item
    case Char(c) => c != QUOTE && c != BACKSLASH
    case Simple(c) => SimpleEscape(c).Some?
    case Octal(digits) => 1 <= |digits| <= OCTAL_DIGITS && AllOctal(digits)
    case Hex(a, b) => IsHex(a) && IsHex(b)
  }

  function Render(item: Item): (s: string) {
    match item
    case Char(c) => [c]
    case Simple(c) => [BACKSLASH, c]
    case Octal(digits) => [BACKSLASH] + digits
    case Hex(a, b) => [BACKSLASH, 'x', a, b]
  }

  function Meaning(item: Item): char
    requires GoodItem(item)
  {
    match item
    case Char(c) => c
    case Simple(c) => SimpleEscape(c).value
    case Octal(digits) => Byte(OctalValue(digits))
    case Hex(a, b) => Byte(FromHex(a) * 16 + FromHex(b))
  }

  /** The items before a closing quote. */
  function RenderAll(items: seq<Item>): string {
    if items == [] then [QUOTE] else Render(items[0]) + RenderAll(items[1..])
  }

  /** Good items; no octal escape stops short of a digit that it could take. */
  predicate GoodItems(items: seq<Item>) {
    items == [] ||
    (GoodItem(items[0]) && TakesAll(items[0], RenderAll(items[1..])) && GoodItems(items[1..]))
  }

  predicate TakesAll(item: Item, rest: string) {
    item.Octal? && |item.digits| < OCTAL_DIGITS ==> rest != [] && !IsOctal(rest[0])
  }

  function MeaningAll(items: seq<Item>): string
    requires GoodItems(items)
  {
    if items == [] then [] else [Meaning(items[0])] + MeaningAll(items[1..])
  }

  // ----- reading a literal -----

  /** The first item of what is left of a literal. */
  function FirstItem(t: string): (r: Option<Item>)
    requires |t| > 1
    ensures r.Some? ==> GoodItem(r.value)
  {
    if t[0] != BACKSLASH then (if t[0] == QUOTE then None else Some(Char(t[0])))
    else if IsOctal(t[1]) then
      var n := OctalLength(t[1..], OCTAL_DIGITS);
      Some(Octal(t[1..][..n]))
    else if SimpleEscape(t[1]).Some? then Some(Simple(t[1]))
    else if t[1] == 'x' && |t| > 3 && IsHex(t[2]) && IsHex(t[3]) then Some(Hex(t[2], t[3]))
    else None
  }

  lemma FirstItemIsThere(t: string)
    requires |t| > 1 && FirstItem(t).Some?
    ensures var s := Render(FirstItem(t).value); 0 < |s| <= |t| && t[..|s|] == s
  {
    if t[0] == BACKSLASH && IsOctal(t[1]) {
      var n := OctalLength(t[1..], OCTAL_DIGITS);
      assert t[..n + 1] == [t[0]] + t[1..][..n];
    }
  }

  /** The value of what is left of a literal, down to the closing quote. */
  function Decode(t: string): Option<string>
    decreases |t|
  {
    if |t| <= 1 then Some([])
    else if FirstItem(t).None? then None
    else
      FirstItemIsThere(t);
      var item := FirstItem(t).value;
      match Decode(t[|Render(item)|..])
      case None => None
      case Some(v) => Some([Meaning(item)] + v)
  }

  // ----- literals are renderings -----

  lemma RenderAllEnds(items: seq<Item>)
    ensures RenderAll(items) != []
  {
  }

  lemma OctalReads(digits: string, rest: string)
    requires GoodItem(Octal(digits)) && TakesAll(Octal(digits), rest)
    ensures OctalLength(digits + rest, OCTAL_DIGITS) == |digits|
  {
    assert (digits + rest)[..|digits|] == digits;
    OctalLengthIs(digits + rest, OCTAL_DIGITS, |digits|);
  }

  /** Reading what an item was rendered to gives the item. */
  lemma FirstItemReads(item: Item, rest: string)
    requires GoodItem(item) && rest != [] && TakesAll(item, rest)
    ensures FirstItem(Render(item) + rest) == Some(item)
  {
    if item.Octal? {
      OctalItemReads(item.digits, rest);
    } else {
      OtherItemReads(item, rest);
    }
  }

  lemma OctalItemReads(digits: string, rest: string)
    requires GoodItem(Octal(digits)) && rest != [] && TakesAll(Octal(digits), rest)
    ensures FirstItem(Render(Octal(digits)) + rest) == Some(Octal(digits))
  {
    hide SimpleEscape, IsHex, OctalLength, TakesAll;
    var t := Render(Octal(digits)) + rest;
    assert t[1..] == digits + rest;
    OctalReads(digits, rest);
    assert t[1] == digits[0];
  }

  lemma OtherItemReads(item: Item, rest: string)
    requires GoodItem(item) && rest != [] && !item.Octal?
    ensures FirstItem(Render(item) + rest) == Some(item)
  {
    hide OctalLength;
  }

  lemma {:induction false} RenderedDecodes(items: seq<Item>)
    requires GoodItems(items)
    ensures Decode(RenderAll(items)) == Some(MeaningAll(items))
  {
    if items != [] {
      var rest := RenderAll(items[1..]);
      RenderAllEnds(items[1..]);
      FirstItemReads(items[0], rest);
      RenderedDecodes(items[1..]);
      var t := Render(items[0]) + rest;
      assert t[|Render(items[0])|..] == rest;
    }
  }

  /** What a suffix says, the whole says. */
  lemma {:induction false} QuotedBehind(s: string, t: string, i: nat)
    requires Quoted(t, i)
    ensures Quoted(s + t, |s| + i)
    decreases |t| - i
  {
    if t[i] != QUOTE {
      QuotedBehind(s, t, if t[i] == BACKSLASH then i + 2 else i + 1);
    }
  }

  lemma {:induction false} QuotedOverPlain(t: string, i: nat, n: nat)
    requires i <= n < |t| && Quoted(t, n) && forall k :: i <= k < n ==> t[k] != QUOTE && t[k] != BACKSLASH
    ensures Quoted(t, i)
    decreases n - i
  {
    if i < n {
      QuotedOverPlain(t, i + 1, n);
    }
  }

  lemma QuotedItem(item: Item, rest: string)
    requires GoodItem(item) && Quoted(rest, 0)
    ensures Quoted(Render(item) + rest, 0)
  {
    var s := Render(item);
    QuotedBehind(s, rest, 0);
    match item
    case Char(c) =>
    case Simple(c) =>
    case Octal(digits) =>
      assert forall k :: 2 <= k < |s| ==> (s + rest)[k] == digits[k - 1];
      QuotedOverPlain(s + rest, 2, |s|);
    case Hex(a, b) =>
      QuotedOverPlain(s + rest, 2, |s|);
  }

  lemma {:induction false} RenderedIsQuoted(items: seq<Item>)
    requires GoodItems(items)
    ensures Quoted(RenderAll(items), 0)
  {
    if items != [] {
      RenderedIsQuoted(items[1..]);
      QuotedItem(items[0], RenderAll(items[1..]));
    }
  }

  /** Every rendering is one literal to the lexer, and is read back as its meaning. */
  lemma RenderRoundTrip(items: seq<Item>)
    requires GoodItems(items)
    ensures IsLiteral([QUOTE] + RenderAll(items))
    ensures Decode(RenderAll(items)) == Some(MeaningAll(items))
  {
    RenderedIsQuoted(items);
    QuotedBehind([QUOTE], RenderAll(items), 0);
    RenderedDecodes(items);
  }

  // ----- every value can be written -----

  /** How a character of a value is written: as it is, as a backslash and a letter, or as its code
      in hexadecimal or octal digits. */
  datatype Style = AsIs | Named | HexLower | HexUpper | InOctal

  const LOWER := "0123456789abcdef"
  const UPPER := "0123456789ABCDEF"
  const EIGHT := "01234567"

  /** The letters for the characters that have one, as in C. */
  const LETTERS: map<char, char> :=
    map['\n' := 'n', '\r' := 'r', '\t' := 't', 7 as char := 'a', 8 as char := 'b', 11 as char := 'v', 12 as char := 'f',
        '\'' := '\'', '\"' := '\"', '\\' := '\\']

  predicate CanWrite(c: char, style: Style) {
    match style
    case AsIs => c != '\"' && c != '\\'
    case Named => c in LETTERS
    case _ => c as int < 256
  }

  function WriteChar(c: char, style: Style): string
    requires CanWrite(c, style)
  {
    var n := c as int;
    match style
    case AsIs => [c]
    case Named => ['\\', LETTERS[c]]
    case HexLower => ['\\', 'x', LOWER[n / 16], LOWER[n % 16]]
    case HexUpper => ['\\', 'x', UPPER[n / 16], UPPER[n % 16]]
    case InOctal => ['\\', EIGHT[n / 64], EIGHT[n / 8 % 8], EIGHT[n % 8]]
  }

  predicate AllCanWrite(v: string, styles: seq<Style>) {
    |v| == |styles| && forall i :: 0 <= i < |v| ==> CanWrite(v[i], styles[i])
  }

  /** A value before its closing quote, each character in its own style. */
  function WriteAll(v: string, styles: seq<Style>): string
    requires AllCanWrite(v, styles)
  {
    if v == [] then ['\"'] else WriteChar(v[0], styles[0]) + WriteAll(v[1..], styles[1..])
  }

  function ItemFor(c: char, style: Style): Item
    requires CanWrite(c, style)
  {
    var n := c as int;
    match style
    case AsIs => Char(c)
    case Named => Simple(LETTERS[c])
    case HexLower => Hex(LOWER[n / 16], LOWER[n % 16])
    case HexUpper => Hex(UPPER[n / 16], UPPER[n % 16])
    case InOctal => Octal([EIGHT[n / 64], EIGHT[n / 8 % 8], EIGHT[n % 8]])
  }

  lemma HexDigits(n: nat)
    requires n < 16
    ensures IsHex(LOWER[n]) && FromHex(LOWER[n]) == n && IsHex(UPPER[n]) && FromHex(UPPER[n]) == n
  {
  }

  lemma OctalDigits(n: nat)
    requires n < 8
    ensures IsOctal(EIGHT[n]) && FromOctal(EIGHT[n]) == n
  {
  }

  lemma OctalOfThree(a: nat, b: nat, c: nat)
    requires a < 8 && b < 8 && c < 8
    ensures var s := [EIGHT[a], EIGHT[b], EIGHT[c]]; AllOctal(s) && OctalValue(s) == 64 * a + 8 * b + c
  {
    OctalDigits(a);
    OctalDigits(b);
    OctalDigits(c);
    var s := [EIGHT[a], EIGHT[b], EIGHT[c]];
    assert s[..2] == [EIGHT[a], EIGHT[b]] && s[..2][..1] == [EIGHT[a]] && s[..2][..1][..0] == [];
    assert OctalValue(s[..2][..1]) == a && OctalValue(s[..2]) == 8 * a + b;
  }

  lemma ByteOf(c: char)
    requires c as int < 256
    ensures Byte(c as int) == c
  {
  }

  /** However a character is written, it is what the escape means. */
  lemma WrittenMeans(c: char, style: Style)
    requires CanWrite(c, style)
    ensures var item := ItemFor(c, style); GoodItem(item) && Render(item) == WriteChar(c, style) && Meaning(item) == c
  {
    match style
    case AsIs =>
    case Named => LetterMeans(c);
    case InOctal => OctalMeans(c);
    case _ => HexMeans(c);
  }

  lemma HexMeans(c: char)
    requires c as int < 256
    ensures var item := ItemFor(c, HexLower); GoodItem(item) && Render(item) == WriteChar(c, HexLower) && Meaning(item) == c
    ensures var item := ItemFor(c, HexUpper); GoodItem(item) && Render(item) == WriteChar(c, HexUpper) && Meaning(item) == c
  {
    hide FromHex, IsHex, Byte;
    HexDigits(c as int / 16);
    HexDigits(c as int % 16);
    ByteOf(c);
  }

  lemma OctalMeans(c: char)
    requires c as int < 256
    ensures var item := ItemFor(c, InOctal); GoodItem(item) && Render(item) == WriteChar(c, InOctal) && Meaning(item) == c
  {
    hide OctalValue, AllOctal, Byte;
    var n := c as int;
    InBaseEight(n);
    var a, b, d := n / 64, n / 8 % 8, n % 8;
    OctalOfThree(a, b, d);
    assert ItemFor(c, InOctal).digits == [EIGHT[a], EIGHT[b], EIGHT[d]];
    ByteOf(c);
  }

  /** Three octal digits give the number they stand for, kept in a byte. */
  lemma OctalEscapeIs(a: nat, b: nat, d: nat)
    requires a < 8 && b < 8 && d < 8
    ensures Decode(['\\', EIGHT[a], EIGHT[b], EIGHT[d], '\"']) == Some([((64 * a + 8 * b + d) % 256) as char])
  {
    hide OctalValue, AllOctal, Decode;
    OctalOfThree(a, b, d);
    var item := Octal([EIGHT[a], EIGHT[b], EIGHT[d]]);
    OneItem(item);
    assert Render(item) + [QUOTE] == ['\\', EIGHT[a], EIGHT[b], EIGHT[d], '\"'];
    assert Meaning(item) == ((64 * a + 8 * b + d) % 256) as char;
  }

  lemma OneItem(item: Item)
    requires GoodItem(item) && TakesAll(item, [QUOTE])
    ensures Decode(Render(item) + [QUOTE]) == Some([Meaning(item)])
  {
    hide Decode, GoodItem, TakesAll, Render, Meaning;
    var none: seq<Item>, items := [], [item];
    assert items[0] == item && items[1..] == none && RenderAll(none) == [QUOTE] && GoodItems(none) && MeaningAll(none) == [];
    assert GoodItems(items) && RenderAll(items) == Render(item) + [QUOTE];
    RenderedDecodes(items);
    assert MeaningAll(items) == [Meaning(item)] + MeaningAll(none) == [Meaning(item)];
  }

  lemma InBaseEight(n: nat)
    requires n < 256
    ensures n / 64 < 4 && 64 * (n / 64) + 8 * (n / 8 % 8) + n % 8 == n
  {
    assert n / 8 / 8 == n / 64;
  }

  lemma LetterMeans(c: char)
    requires c in LETTERS
    ensures var item := ItemFor(c, Named); GoodItem(item) && Render(item) == WriteChar(c, Named) && Meaning(item) == c
  {
    EscapeOf(c);
  }

  lemma EscapeOf(c: char)
    requires c in LETTERS
    ensures SimpleEscape(LETTERS[c]) == Some(c)
  {
  }

  /** What can follow a backslash, and what counts as a digit. */
  lemma EscapesAre(c: char)
    ensures SimpleEscape(c).Some? <==> c in {'n', 'r', 't', 'a', 'b', 'v', 'f', '\'', '\"', '\\'}
    ensures IsHex(c) <==> c in LOWER || c in UPPER
    ensures IsOctal(c) <==> c in EIGHT
  {
    if IsHex(c) {
      var n := FromHex(c);
      assert c == LOWER[n] || c == UPPER[n];
    }
    if IsOctal(c) {
      assert c == EIGHT[FromOctal(c)];
    }
  }

  function ItemsFor(v: string, styles: seq<Style>): seq<Item>
    requires AllCanWrite(v, styles)
  {
    if v == [] then [] else [ItemFor(v[0], styles[0])] + ItemsFor(v[1..], styles[1..])
  }

  lemma {:induction false} WrittenIsRendered(v: string, styles: seq<Style>)
    requires AllCanWrite(v, styles)
    ensures var items := ItemsFor(v, styles); GoodItems(items) && RenderAll(items) == WriteAll(v, styles) && MeaningAll(items) == v
  {
    hide ItemFor, WriteChar, CanWrite, GoodItem, Meaning, Render;
    if v != [] {
      WrittenIsRendered(v[1..], styles[1..]);
      WrittenMeans(v[0], styles[0]);
      ThreeDigits(v[0], styles[0]);
      var items := ItemsFor(v, styles);
      assert items[1..] == ItemsFor(v[1..], styles[1..]);
      assert v == [v[0]] + v[1..];
    }
  }

  lemma ThreeDigits(c: char, style: Style)
    requires CanWrite(c, style)
    ensures forall rest :: TakesAll(ItemFor(c, style), rest)
  {
  }

  /** Every value of bytes, each character written in any way there is for it, is one literal to the
      lexer and is read as that value. */
  lemma ValueRoundTrip(v: string, styles: seq<Style>)
    requires AllCanWrite(v, styles)
    ensures IsLiteral(['\"'] + WriteAll(v, styles)) && Decode(WriteAll(v, styles)) == Some(v)
  {
    hide Decode, IsLiteral, AllCanWrite;
    WrittenIsRendered(v, styles);
    RenderRoundTrip(ItemsFor(v, styles));
  }

  // ----- every literal that is read is a rendering -----

  lemma {:induction false} OctalStops(s: string, limit: nat)
    requires OctalLength(s, limit) < limit && OctalLength(s, limit) < |s|
    ensures !IsOctal(s[OctalLength(s, limit)])
  {
    if limit > 0 && s != [] && IsOctal(s[0]) {
      OctalStops(s[1..], limit - 1);
    }
  }

  lemma {:induction false} QuotedAfterPlain(t: string, i: nat, n: nat)
    requires i <= n <= |t| && Quoted(t, i) && forall k :: i <= k < n ==> t[k] != QUOTE && t[k] != BACKSLASH
    ensures Quoted(t, n)
    decreases n - i
  {
    if i < n {
      QuotedAfterPlain(t, i + 1, n);
    }
  }

  /** Lexer and parser stay aligned: after an item the lexer is outside of an escape too. */
  lemma StaysAligned(t: string)
    requires |t| > 1 && Quoted(t, 0) && FirstItem(t).Some?
    ensures var n := |Render(FirstItem(t).value)|; n < |t| && Quoted(t, n)
  {
    var item := FirstItem(t).value;
    if item.Octal? {
      var n := |Render(item)|;
      assert forall k :: 1 <= k < n ==> t[k] == item.digits[k - 1];
      QuotedAfterPlain(t, 2, n);
    } else if item.Hex? {
      QuotedAfterPlain(t, 2, 4);
    }
  }

  lemma TakesAllOfIt(t: string)
    requires |t| > 1 && Quoted(t, 0) && FirstItem(t).Some?
    ensures var n := |Render(FirstItem(t).value)|; n < |t| && TakesAll(FirstItem(t).value, t[n..])
  {
    StaysAligned(t);
    var item := FirstItem(t).value;
    if item.Octal? && |item.digits| < OCTAL_DIGITS {
      OctalStops(t[1..], OCTAL_DIGITS);
    }
  }

  lemma {:induction false} DecodedIsRendered(t: string) returns (items: seq<Item>)
    requires Quoted(t, 0) && Decode(t).Some?
    ensures GoodItems(items) && RenderAll(items) == t && MeaningAll(items) == Decode(t).value
    decreases |t|
  {
    if |t| == 1 {
      items := [];
    } else {
      var item := FirstItem(t).value;
      var n := |Render(item)|;
      FirstItemIsThere(t);
      StaysAligned(t);
      TakesAllOfIt(t);
      QuotedShift(t, n, n);
      var rest := DecodedIsRendered(t[n..]);
      items := [item] + rest;
      assert items[1..] == rest && t == t[..n] + t[n..];
    }
  }

  /** A literal can be read if and only if it is a rendering of items; its value is then theirs. */
  lemma ReadIffRendered(tok: string)
    requires IsLiteral(tok)
    ensures Decode(tok[1..]).Some? <==> exists items :: GoodItems(items) && [QUOTE] + RenderAll(items) == tok
    ensures forall items :: GoodItems(items) && [QUOTE] + RenderAll(items) == tok ==> Decode(tok[1..]) == Some(MeaningAll(items))
  {
    QuotedShift(tok, 1, 1);
    if Decode(tok[1..]).Some? {
      var items := DecodedIsRendered(tok[1..]);
      assert [QUOTE] + RenderAll(items) == tok;
    }
    forall items | GoodItems(items) && [QUOTE] + RenderAll(items) == tok
      ensures Decode(tok[1..]) == Some(MeaningAll(items))
    {
      assert tok[1..] == RenderAll(items);
      RenderedDecodes(items);
    }
  }

  // ----- the parser -----

  lemma NoDigits(s: string)
    requires s == []
    ensures AllOctal(s) && OctalValue(s) == 0
  {
  }

  lemma OctalMore(s: string, i: nat, j: nat)
    requires i <= j < |s| && AllOctal(s[i..j]) && IsOctal(s[j])
    ensures AllOctal(s[i..j + 1]) && OctalValue(s[i..j + 1]) == OctalValue(s[i..j]) * 8 + FromOctal(s[j])
  {
    var t := s[i..j + 1];
    assert t[..|t| - 1] == s[i..j] && t[|t| - 1] == s[j];
    assert t == s[i..j] + [s[j]];
  }

  /** ParseOctalEscapeSequence; or-ing a digit into cleared bits and shifting is adding and
      multiplying. */
  method ParseOctalEscapeSequence(s: string, i0: nat) returns (c: char, i: nat)
    requires i0 <= |s|
    ensures var n := OctalLength(s[i0..], OCTAL_DIGITS); i == i0 + n && c == Byte(OctalValue(s[i0..][..n]))
  {
    hide OctalValue, OctalLength, AllOctal;
    var idx, n: nat, r: nat := i0, 0, 0;
    NoDigits(s[i0..i0]);
    while idx < |s| && IsOctal(s[idx]) && n < OCTAL_DIGITS
      invariant idx == i0 + n <= |s| && n <= OCTAL_DIGITS && AllOctal(s[i0..idx]) && r == OctalValue(s[i0..idx]) * 8
    {
      OctalMore(s, i0, idx);
      r := r + FromOctal(s[idx]);
      idx := idx + 1;
      r := r * 8;
      n := n + 1;
    }
    assert s[i0..][..n] == s[i0..idx];
    OctalLengthIs(s[i0..], OCTAL_DIGITS, n);
    r := r / 8;
    return Byte(r), i0 + n;
  }

  /** ParseHexEscapeSequence: both reads are inside the token, since a hex digit is no quote. */
  method ParseHexEscapeSequence(s: string, i0: nat) returns (res: Option<char>, i: nat)
    requires Quoted(s, i0)
    ensures res.Some? <==> i0 + 1 < |s| && IsHex(s[i0]) && IsHex(s[i0 + 1])
    ensures res.Some? ==> i == i0 + 2 && Quoted(s, i) && res.value == Byte(FromHex(s[i0]) * 16 + FromHex(s[i0 + 1]))
  {
    var r := 0;
    i := i0;
    for j := 0 to 2
      invariant i == i0 + j && Quoted(s, i) && (forall k :: i0 <= k < i ==> IsHex(s[k]))
      invariant r == if j == 0 then 0 else if j == 1 then FromHex(s[i0]) * 16 else (FromHex(s[i0]) * 16 + FromHex(s[i0 + 1])) * 16
    {
      var v := s[i];
      i := i + 1;
      if !IsHex(v) {
        return None, i;
      }
      r := r + FromHex(v);
      r := r * 16;
    }
    r := r / 16;
    return Some(Byte(r)), i;
  }

  /** The item at i begins with the backslash there. */
  ghost predicate ReadsItem(s: string, i: nat, res: Option<char>, next: nat)
    requires i + 1 < |s|
  {
    var item := FirstItem(s[i..]);
    (res.Some? <==> item.Some?) && (res.Some? ==> res.value == Meaning(item.value) && next == i + |Render(item.value)|)
  }

  /** ParseEscapeSequence, after the backslash at i0 - 1. */
  method ParseEscapeSequence(s: string, i0: nat) returns (res: Option<char>, i: nat)
    requires 0 < i0 && Quoted(s, i0 - 1) && s[i0 - 1] == BACKSLASH && i0 < |s|
    ensures ReadsItem(s, i0 - 1, res, i)
    ensures res.Some? ==> Quoted(s, i) && i0 < i
  {
    var t := s[i0 - 1..];
    var c := s[i0];
    QuotedShift(s, i0 - 1, i0 - 1);
    assert t[1..] == s[i0..];
    if IsOctal(c) {
      var r;
      r, i := ParseOctalEscapeSequence(s, i0);
      res := Some(r);
    } else {
      i := i0 + 1;
      res := SimpleEscape(c);
      if res.None? && c == 'x' {
        res, i := ParseHexEscapeSequence(s, i);
      }
    }
    if FirstItem(t).Some? {
      StaysAligned(t);
      QuotedBack(s, i0 - 1, |Render(FirstItem(t).value)|);
    }
  }

  lemma QuotedBack(s: string, b: nat, i: nat)
    requires b <= |s| && Quoted(s[b..], i)
    ensures Quoted(s, b + i)
  {
    assert s == s[..b] + s[b..];
    QuotedBehind(s[..b], s[b..], i);
  }

  /** ParseStringLiteral: on a string token it fails just when the text is no rendering of items,
      and otherwise stops exactly at the closing quote, with the value. */
  method ParseStringLiteral(tok: string, kind: Kind) returns (res: Option<string>, stop: nat)
    requires kind == String ==> IsLiteral(tok)
    ensures kind != String ==> res.None?
    ensures kind == String ==> res == Decode(tok[1..])
    ensures res.Some? ==> stop == |tok| - 1 && tok[stop] == QUOTE
  {
    if kind != String {
      return None, 0;
    }
    res, stop := ParseFrom(tok);
  }

  method ParseFrom(tok: string) returns (res: Option<string>, i: nat)
    requires Quoted(tok, 1) && |tok| >= 2
    ensures res == Decode(tok[1..])
    ensures res.Some? ==> i == |tok| - 1 && tok[i] == QUOTE
  {
    hide Decode, Quoted, Prepend;
    var len, s := |tok|, [];
    i := 1;
    PrependNothing(Decode(tok[1..]));
    while i < len - 1
      invariant 1 <= i <= |tok| && Quoted(tok, i) && Decode(tok[1..]) == Prepend(s, Decode(tok[i..]))
    {
      var r;
      r, i := ParseCharacter(tok, i);
      if r.None? {
        NothingToPrepend(s);
        return None, i;
      }
      PrependTwice(s, [r.value], Decode(tok[i..]));
      s := s + [r.value];
    }
    ClosingQuote(tok, i, s);
    return Some(s), i;
  }

  /** The body of ParseStringLiteral's loop: one character or escape. */
  method ParseCharacter(tok: string, i0: nat) returns (res: Option<char>, i: nat)
    requires Quoted(tok, i0) && i0 + 1 < |tok|
    ensures res.None? ==> Decode(tok[i0..]) == None
    ensures res.Some? ==> Quoted(tok, i) && i0 < i <= |tok| && Decode(tok[i0..]) == Prepend([res.value], Decode(tok[i..]))
  {
    hide Decode, Prepend;
    DecodeStep(tok, i0);
    if tok[i0] != BACKSLASH {
      return Some(tok[i0]), i0 + 1;
    }
    res, i := ParseEscapeSequence(tok, i0 + 1);
  }

  lemma ClosingQuote(tok: string, i: nat, s: string)
    requires Quoted(tok, i) && i >= |tok| - 1
    ensures i == |tok| - 1 && tok[i] == QUOTE && Prepend(s, Decode(tok[i..])) == Some(s)
  {
    assert s + [] == s;
  }

  lemma PrependNothing(v: Option<string>)
    ensures Prepend([], v) == v
  {
    if v.Some? {
      assert [] + v.value == v.value;
    }
  }

  lemma NothingToPrepend(s: string)
    ensures Prepend(s, None) == None
  {
  }

  function Prepend(s: string, v: Option<string>): Option<string> {
    if v.None? then None else Some(s + v.value)
  }

  lemma PrependTwice(s: string, t: string, v: Option<string>)
    ensures Prepend(s, Prepend(t, v)) == Prepend(s + t, v)
  {
    if v.Some? {
      assert s + (t + v.value) == (s + t) + v.value;
    }
  }

  lemma DecodeStep(s: string, i: nat)
    requires i + 1 < |s|
    ensures var item := FirstItem(s[i..]);
            if item.None? then Decode(s[i..]).None?
            else i + |Render(item.value)| <= |s| && Decode(s[i..]) == Prepend([Meaning(item.value)], Decode(s[i + |Render(item.value)|..]))
  {
    var t := s[i..];
    if FirstItem(t).Some? {
      FirstItemIsThere(t);
      var n := |Render(FirstItem(t).value)|;
      assert t[n..] == s[i + n..];
    }
  }

  // ----- lexer and parser together -----

  /** What the parser makes of a token: for a string token the value, having stopped at the closing
      quote, or an error. */
  ghost predicate ReadAs(buffer: string, words: set<string>, t: Token, v: Option<string>, stop: nat) {
    && GoodToken(buffer, words, t)
    && v == (if t.kind == String then Decode(buffer[t.left..t.right][1..]) else None)
    && (v.Some? ==> t.left + stop == t.right - 1 && buffer[t.left + stop] == QUOTE)
  }

  /** Every string token of every line can be given to the parser, which reports an error or stops
      exactly at its closing quote. The tokens cover the text up to end, or up to a literal that is
      not terminated. */
  method ReadLine(buffer: string, words: set<string>)
    returns (ok: bool, tokens: seq<Token>, end: nat, values: seq<Option<string>>, stops: seq<nat>)
    requires forall w :: w in words ==> w == "" || w[0] != QUOTE
    ensures Tokenized(buffer, words, tokens, end)
    ensures if ok then CommentFrom(buffer, end, CommentAt(buffer, 0)) && Whole(buffer, tokens, end) else end < |buffer| && buffer[end] == QUOTE
    ensures |values| == |stops| == |tokens| && forall k :: 0 <= k < |tokens| ==> ReadAs(buffer, words, tokens[k], values[k], stops[k])
  {
    hide Decode, Quoted, Covered, NeverCloses;
    var lexer := new Lexer(buffer, words);
    var begin;
    ok, begin := lexer.AnalyzeLine();
    end := if ok then lexer.end else begin;
    tokens, values, stops := lexer.tokens, [], [];
    for k := 0 to |tokens|
      invariant |values| == |stops| == k && forall j :: 0 <= j < k ==> ReadAs(buffer, words, tokens[j], values[j], stops[j])
    {
      assert GoodToken(buffer, words, tokens[k]);
      var v, stop := ParseStringLiteral(buffer[tokens[k].left..tokens[k].right], tokens[k].kind);
      values, stops := values + [v], stops + [stop];
    }
  }
}
