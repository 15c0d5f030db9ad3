/** Splitting a line of assembly into tokens: assembler/lexer.cpp. */
module LexerModel {

  const QUOTE := '\"'
  const BACKSLASH := '\\'
  const COMMENT := '#'

  predicate IsSpace(c: char) { c == ' ' || '\t' <= c <= '\r' }

  predicate IsDelim(c: char) { c in ",:{}()<>=[]" }

  /** Delim and Word stand for the many delimiters, keywords and operations. */
  datatype Kind = Delim | Word | String | Id
  datatype Token = Token(left: nat, right: nat, kind: Kind)

  // ----- string literals -----

  /** Reading s from i on, outside of an escape, the first quote that is not escaped is the last
      character. One character is skipped after each backslash. */
  predicate Quoted(s: string, i: nat)
    decreases |s| - i
  {
    i < |s| &&
    if s[i] == QUOTE then i == |s| - 1
    else if s[i] == BACKSLASH then Quoted(s, i + 2)
    else Quoted(s, i + 1)
  }

  predicate IsLiteral(s: string) { s != [] && s[0] == QUOTE && Quoted(s, 1) }

  /** Between i and n the lexer meets no quote outside of an escape, and is at n inside one just
      when escaped. */
  ghost predicate Open(s: string, i: nat, n: nat, escaped: bool)
    decreases n - i
  {
    if i >= n then i == n && !escaped
    else if i >= |s| then false
    else if s[i] == BACKSLASH then (if i + 1 == n then escaped else Open(s, i + 2, n, escaped))
    else s[i] != QUOTE && Open(s, i + 1, n, escaped)
  }

  /** No quote outside of an escape from i to n. */
  ghost predicate NeverCloses(s: string, i: nat, n: nat) { Open(s, i, n, false) || Open(s, i, n, true) }

  lemma {:induction false} OpenNext(s: string, i: nat, n: nat, escaped: bool)
    requires i <= n < |s| && Open(s, i, n, escaped)
    ensures escaped ==> Open(s, i, n + 1, false)
    ensures !escaped && s[n] == BACKSLASH ==> Open(s, i, n + 1, true)
    ensures !escaped && s[n] != BACKSLASH && s[n] != QUOTE ==> Open(s, i, n + 1, false)
    decreases n - i
  {
    if i < n && !(s[i] == BACKSLASH && i + 1 == n) {
      OpenNext(s, if s[i] == BACKSLASH then i + 2 else i + 1, n, escaped);
    }
  }

  lemma {:induction false} OpenCloses(s: string, i: nat, n: nat, t: string)
    requires i <= n < |s| && Open(s, i, n, false) && s[n] == QUOTE && t == s[..n + 1]
    ensures Quoted(t, i)
    decreases n - i
  {
    if i < n {
      OpenCloses(s, if s[i] == BACKSLASH then i + 2 else i + 1, n, t);
    }
  }

  lemma {:induction false} QuotedShift(s: string, b: nat, i: nat)
    requires b <= |s| && b <= i && Quoted(s, i)
    ensures Quoted(s[b..], i - b)
    decreases |s| - i
  {
    if s[i] != QUOTE {
      QuotedShift(s, b, if s[i] == BACKSLASH then i + 2 else i + 1);
    }
  }

  /** A literal that runs from b to the first quote at n. */
  lemma LiteralFrom(s: string, b: nat, n: nat)
    requires b < n < |s| && s[b] == QUOTE && s[n] == QUOTE && Open(s, b + 1, n, false)
    ensures IsLiteral(s[b..n + 1])
  {
    var t := s[..n + 1];
    OpenCloses(s, b + 1, n, t);
    QuotedShift(t, b, b + 1);
    assert t[b..] == s[b..n + 1];
  }

  // ----- tokens -----

  /** What a token looks like, and that its kind tells keywords and operations from other names. */
  ghost predicate GoodToken(buffer: string, words: set<string>, t: Token) {
    && t.left < t.right <= |buffer|
    && (t.kind != Delim ==> (t.kind == Word <==> buffer[t.left..t.right] in words))
    && match t.kind
       case Delim => t.right == t.left + 1 && IsDelim(buffer[t.left])
       case String => IsLiteral(buffer[t.left..t.right])
       case _ => buffer[t.left] != QUOTE && forall i :: t.left <= i < t.right ==> Plain(buffer[i])
  }

  predicate Plain(c: char) { !IsDelim(c) && !IsSpace(c) }

  ghost predicate Covered(buffer: string, tokens: seq<Token>, i: nat)
    requires i < |buffer|
  {
    IsSpace(buffer[i]) || exists k :: 0 <= k < |tokens| && tokens[k].left <= i < tokens[k].right
  }

  /** The tokens of the first n characters: ordered, disjoint, not empty, inside the line, and
      nothing but white space outside of them. */
  ghost predicate Tokenized(buffer: string, words: set<string>, tokens: seq<Token>, n: nat) {
    && n <= |buffer|
    && (forall k :: 0 <= k < |tokens| ==> GoodToken(buffer, words, tokens[k]) && tokens[k].right <= n)
    && (forall j, k :: 0 <= j < k < |tokens| ==> tokens[j].right <= tokens[k].left)
    && (forall i :: 0 <= i < n ==> Covered(buffer, tokens, i))
  }

  lemma SpaceMore(buffer: string, words: set<string>, tokens: seq<Token>, n: nat)
    requires n < |buffer| && Tokenized(buffer, words, tokens, n) && IsSpace(buffer[n])
    ensures Tokenized(buffer, words, tokens, n + 1)
  {
    hide GoodToken;
  }

  lemma TokenMore(buffer: string, words: set<string>, tokens: seq<Token>, t: Token)
    requires Tokenized(buffer, words, tokens, t.left) && GoodToken(buffer, words, t)
    ensures Tokenized(buffer, words, tokens + [t], t.right)
  {
    hide GoodToken;
    assert t.left < t.right <= |buffer| by { TokenInside(buffer, words, t); }
    var tokens' := tokens + [t];
    forall i | 0 <= i < t.right
      ensures Covered(buffer, tokens', i)
    {
      if i < t.left {
        assert Covered(buffer, tokens, i);
        if !IsSpace(buffer[i]) {
          var k :| 0 <= k < |tokens| && tokens[k].left <= i < tokens[k].right;
          assert tokens'[k] == tokens[k];
        }
      } else {
        assert tokens'[|tokens|] == t;
      }
    }
  }

  lemma TokenInside(buffer: string, words: set<string>, t: Token)
    requires GoodToken(buffer, words, t)
    ensures t.left < t.right <= |buffer|
  {
  }

  /** Names, keywords and operations go on to a delimiter, white space or the end. */
  ghost predicate Whole(buffer: string, tokens: seq<Token>, end: nat) {
    forall k :: 0 <= k < |tokens| && (tokens[k].kind == Word || tokens[k].kind == Id) ==> EndsWhole(buffer, tokens[k].right, end)
  }

  predicate EndsWhole(buffer: string, right: nat, end: nat) { right == end || (right < |buffer| && !Plain(buffer[right])) }

  /** The characters of each class. */
  lemma CharactersAre(c: char)
    ensures IsSpace(c) <==> c as int in {9, 10, 11, 12, 13, 32}
    ensures IsDelim(c) <==> c in {',', ':', '{', '}', '(', ')', '<', '>', '=', '[', ']'}
  {
  }

  // ----- comments -----

  /** Whether LexPreprocess takes place i to be inside of a literal: every quote counts but one
      behind a backslash, and the first character of the line counts at once. */
  predicate InsideAt(buffer: string, i: nat)
    requires i <= |buffer|
  {
    if i == 0 then buffer != [] && buffer[0] == QUOTE
    else InsideAt(buffer, i - 1) != (i > 1 && buffer[i - 1] == QUOTE && buffer[i - 2] != BACKSLASH)
  }

  /** The first comment marker from i on that is not inside; the end of the line if there is none. */
  function CommentAt(buffer: string, i: nat): (c: nat)
    requires i <= |buffer|
    ensures i <= c <= |buffer|
    decreases |buffer| - i
  {
    if i == |buffer| || (buffer[i] == COMMENT && !InsideAt(buffer, i)) then i else CommentAt(buffer, i + 1)
  }

  /** Where reading from the first character on is: outside, in a literal, or behind its backslash. */
  datatype Place = Outside | InLiteral | Escaped

  function PlaceAt(buffer: string, i: nat): Place
    requires i <= |buffer|
  {
    if i == 0 then Outside
    else
      var c := buffer[i - 1];
      match PlaceAt(buffer, i - 1)
      case Outside => if c == QUOTE then InLiteral else Outside
      case InLiteral => if c == QUOTE then Outside else if c == BACKSLASH then Escaped else InLiteral
      case Escaped => InLiteral
  }

  /** LexPreprocess knows where literals are. */
  predicate Agrees(buffer: string, i: nat)
    requires i <= |buffer|
  {
    InsideAt(buffer, i) <==> PlaceAt(buffer, i) != Outside
  }

  /** A quote behind a backslash, other than the first character, is one that is escaped. */
  predicate BackslashEscapes(buffer: string, q: nat)
    requires q < |buffer|
  {
    q > 0 && buffer[q] == QUOTE && buffer[q - 1] == BACKSLASH ==> PlaceAt(buffer, q) == Escaped
  }

  lemma {:induction false} EscapedIsBehind(buffer: string, i: nat)
    requires i <= |buffer| && PlaceAt(buffer, i) == Escaped
    ensures i > 0 && buffer[i - 1] == BACKSLASH
  {
  }

  lemma {:induction false} AgreesUpTo(buffer: string, i: nat)
    requires 0 < i <= |buffer| && forall q :: 0 <= q < i ==> BackslashEscapes(buffer, q)
    ensures Agrees(buffer, i)
  {
    if i > 1 {
      AgreesUpTo(buffer, i - 1);
      assert BackslashEscapes(buffer, i - 1);
      if PlaceAt(buffer, i - 1) == Escaped {
        EscapedIsBehind(buffer, i - 1);
      }
    }
  }

  /** It knows so, all along the line, if and only if no quote behind a backslash ends a literal
      or begins one. */
  lemma CommentsRightIff(buffer: string)
    ensures (forall i :: 0 < i <= |buffer| ==> Agrees(buffer, i)) <==> (forall q :: 0 <= q < |buffer| ==> BackslashEscapes(buffer, q))
  {
    if forall q :: 0 <= q < |buffer| ==> BackslashEscapes(buffer, q) {
      forall i | 0 < i <= |buffer|
        ensures Agrees(buffer, i)
      {
        AgreesUpTo(buffer, i);
      }
    }
    if forall i :: 0 < i <= |buffer| ==> Agrees(buffer, i) {
      forall q | 0 <= q < |buffer|
        ensures BackslashEscapes(buffer, q)
      {
        if q > 0 {
          assert Agrees(buffer, q) && Agrees(buffer, q + 1);
        }
      }
    }
  }

  /** Then what is cut off begins with the first comment marker outside of literals. */
  lemma {:induction false} CommentIsOutside(buffer: string, i: nat)
    requires 0 < i <= |buffer| && forall q :: 0 <= q < |buffer| ==> BackslashEscapes(buffer, q)
    ensures var c := CommentAt(buffer, i);
            && (c < |buffer| ==> buffer[c] == COMMENT && PlaceAt(buffer, c) == Outside)
            && forall j :: i <= j < c ==> buffer[j] != COMMENT || PlaceAt(buffer, j) != Outside
    decreases |buffer| - i
  {
    hide InsideAt, PlaceAt;
    AgreesUpTo(buffer, i);
    if i < |buffer| && !(buffer[i] == COMMENT && !InsideAt(buffer, i)) {
      CommentIsOutside(buffer, i + 1);
    }
  }

  /** A literal that ends in an escaped backslash: the comment behind it is not found. */
  lemma BackslashHidesComment()
    ensures var buffer := [QUOTE, BACKSLASH, BACKSLASH, QUOTE, COMMENT];
            CommentAt(buffer, 0) == |buffer| && PlaceAt(buffer, 4) == Outside
  {
    var buffer := [QUOTE, BACKSLASH, BACKSLASH, QUOTE, COMMENT];
    assert PlaceAt(buffer, 1) == InLiteral && PlaceAt(buffer, 2) == Escaped && PlaceAt(buffer, 3) == InLiteral;
    assert InsideAt(buffer, 0) && InsideAt(buffer, 1) && InsideAt(buffer, 2) && InsideAt(buffer, 3) && InsideAt(buffer, 4);
    assert CommentAt(buffer, 5) == 5 && CommentAt(buffer, 4) == 5 && CommentAt(buffer, 3) == 5 && CommentAt(buffer, 2) == 5;
  }

  /** From n to c there is white space, and at c a comment or the end of the line. */
  ghost predicate CommentFrom(buffer: string, n: nat, c: nat) {
    n <= c <= |buffer| && (c < |buffer| ==> buffer[c] == '#') && forall i :: n <= i < c ==> IsSpace(buffer[i])
  }

  lemma CommentEarlier(buffer: string, n: nat, c: nat)
    requires n > 0 && CommentFrom(buffer, n, c) && IsSpace(buffer[n - 1])
    ensures CommentFrom(buffer, n - 1, c)
  {
  }

  // ----- the lexer -----

  /** The current line of Lexer. words holds the keywords and operations. */
  class Lexer {
    const buffer: string
    const words: set<string>
    var pos: nat
    var end: nat
    var tokens: seq<Token>

    constructor (buffer: string, words: set<string>)
      requires forall w :: w in words ==> w == "" || w[0] != QUOTE
      ensures this.buffer == buffer && this.words == words && Valid() && pos == 0 && end == |buffer| && tokens == []
    {
      this.buffer, this.words, pos, end, tokens := buffer, words, 0, |buffer|, [];
    }

    /** No keyword and no operation begins with a quote. */
    ghost predicate Valid()
      reads this
    {
      pos <= end <= |buffer| && forall w :: w in words ==> w == "" || w[0] != QUOTE
    }

    /** After the end only white space and the comment follow. */
    ghost predicate EndIsOutside()
      reads this
    {
      end <= |buffer| && CommentFrom(buffer, end, CommentAt(buffer, 0))
    }

    /** std::string ends in a null character. */
    function CharAt(i: nat): char
      requires i <= |buffer|
      reads this
    {
      if i == |buffer| then '\0' else buffer[i]
    }

    predicate Eol()
      reads this
    {
      pos == end
    }

    /** LexString, at a quote. It gives a literal, or no quote outside of an escape is left. */
    method LexString() returns (ok: bool)
      requires Valid() && EndIsOutside() && pos < end && buffer[pos] == QUOTE
      modifies this`pos
      ensures old(pos) < pos <= end
      ensures ok ==> IsLiteral(buffer[old(pos)..pos])
      ensures !ok ==> NeverCloses(buffer, old(pos) + 1, end)
    {
      var escaped := false;
      var begin := pos;
      while !Eol()
        invariant begin <= pos <= end
        invariant if pos == begin then !escaped
                  else if pos < end then Open(buffer, begin + 1, pos + 1, escaped)
                  else NeverCloses(buffer, begin + 1, end)
        decreases end - pos
      {
        pos := pos + 1;
        var c := CharAt(pos);
        if pos < end {
          OpenNext(buffer, begin + 1, pos, escaped);
        }
        if escaped {
          escaped := false;
          continue;
        }
        if c == BACKSLASH {
          escaped := true;
        }
        if c == QUOTE {
          break;
        }
      }
      if CharAt(pos) != QUOTE {
        return false;
      }
      LiteralFrom(buffer, begin, pos);
      pos := pos + 1;
      return true;
    }

    function LexGetType(beg: nat, stop: nat): Kind
      requires beg < stop <= |buffer|
      reads this
    {
      if IsDelim(buffer[beg]) then Delim
      else if buffer[beg..stop] in words then Word
      else if buffer[beg] == QUOTE then String
      else Id
    }

    /** Trailing white space does not belong to the text. */
    method TrimEnd()
      requires Valid() && EndIsOutside()
      modifies this`end
      ensures Valid() && EndIsOutside() && end <= old(end) && (end > pos ==> !IsSpace(buffer[end - 1]))
    {
      while end > pos && IsSpace(buffer[end - 1])
        invariant Valid() && EndIsOutside() && end <= old(end)
        decreases end
      {
        CommentEarlier(buffer, end, CommentAt(buffer, 0));
        end := end - 1;
      }
    }

    method SkipSpace()
      requires Valid() && Tokenized(buffer, words, tokens, pos)
      modifies this`pos
      ensures Valid() && Tokenized(buffer, words, tokens, pos) && old(pos) <= pos && (!Eol() ==> !IsSpace(buffer[pos]))
    {
      hide Tokenized;
      while !Eol() && IsSpace(CharAt(pos))
        invariant Valid() && Tokenized(buffer, words, tokens, pos) && old(pos) <= pos
        decreases end - pos
      {
        SpaceMore(buffer, words, tokens, pos);
        pos := pos + 1;
      }
    }

    /** A word: up to the next delimiter or white space. */
    method LexWord()
      requires Valid() && pos < end && Plain(buffer[pos])
      modifies this`pos
      ensures Valid() && old(pos) < pos && forall i :: old(pos) <= i < pos ==> Plain(buffer[i])
      ensures EndsWhole(buffer, pos, end)
    {
      var begin := pos;
      while !Eol() && !IsDelim(CharAt(pos)) && !IsSpace(CharAt(pos))
        invariant Valid() && begin <= pos && forall i :: begin <= i < pos ==> Plain(buffer[i])
        invariant pos == begin ==> pos < end
        decreases end - pos
      {
        pos := pos + 1;
      }
    }

    /** One round of LexTokens. */
    method LexToken() returns (ok: bool)
      requires Valid() && EndIsOutside() && Tokenized(buffer, words, tokens, pos) && Whole(buffer, tokens, end) && pos < end && !IsSpace(buffer[pos])
      modifies this`pos, this`tokens
      ensures Valid() && EndIsOutside() && old(pos) < pos
      ensures ok ==> Tokenized(buffer, words, tokens, pos) && Whole(buffer, tokens, end)
      ensures !ok ==> tokens == old(tokens) && buffer[old(pos)] == QUOTE && NeverCloses(buffer, old(pos) + 1, end)
    {
      hide Tokenized, Open, IsLiteral, IsDelim, IsSpace;
      var left := pos;
      ok := true;
      if IsDelim(buffer[pos]) {
        pos := pos + 1;
      } else if buffer[pos] == QUOTE {
        ok := LexString();
        if !ok {
          return;
        }
      } else {
        LexWord();
      }
      QuoteIsPlain();
      var t := Token(left, pos, LexGetType(left, pos));
      TokenMore(buffer, words, tokens, t);
      tokens := tokens + [t];
    }

    /** LexTokens; begin is where the error is. */
    method LexTokens() returns (ok: bool, begin: nat)
      requires Valid() && EndIsOutside() && tokens == [] && Tokenized(buffer, words, tokens, pos)
      modifies this`pos, this`end, this`tokens
      ensures Valid() && EndIsOutside() && end <= old(end) && Whole(buffer, tokens, end)
      ensures ok ==> pos == end && Tokenized(buffer, words, tokens, end)
      ensures !ok ==> Tokenized(buffer, words, tokens, begin) && Unterminated(buffer, begin, end)
    {
      hide Tokenized, CommentFrom, CommentAt;
      ok, begin := true, 0;
      if Eol() {
        return;
      }
      TrimEnd();
      SkipSpace();
      while !Eol()
        invariant Valid() && EndIsOutside() && end <= old(end) && Tokenized(buffer, words, tokens, pos) && Whole(buffer, tokens, end)
        invariant !Eol() ==> !IsSpace(buffer[pos])
        decreases end - pos
      {
        begin := pos;
        ok := LexToken();
        if !ok {
          return;
        }
        SkipSpace();
      }
    }

    /** find_first_of a quote or a comment marker. */
    method FindMark(start: nat) returns (found: bool, at: nat)
      requires start <= |buffer|
      ensures start <= at <= |buffer| && (found <==> at < |buffer|) && (found ==> buffer[at] == QUOTE || buffer[at] == COMMENT)
      ensures forall i :: start <= i < at ==> buffer[i] != QUOTE && buffer[i] != COMMENT
    {
      at := start;
      while at < |buffer| && buffer[at] != QUOTE && buffer[at] != COMMENT
        invariant start <= at <= |buffer| && forall i :: start <= i < at ==> buffer[i] != QUOTE && buffer[i] != COMMENT
      {
        at := at + 1;
      }
      found := at < |buffer|;
    }

    /** LexPreprocess: the end moves to a comment marker that is taken to be outside of literals. */
    method LexPreprocess()
      requires Valid() && pos == 0 && end == |buffer|
      modifies this`end
      ensures Valid() && EndIsOutside() && (end > pos ==> !IsSpace(buffer[end - 1]))
    {
      hide InsideAt, CommentAt;
      var inside := |buffer| > 0 && buffer[0] == QUOTE;
      FirstPlace(buffer);
      var found, at := FindMark(0);
      NoMarks(buffer, 0, at);
      while found
        invariant end == |buffer| && at <= |buffer| && (found <==> at < |buffer|)
        invariant found ==> buffer[at] == QUOTE || buffer[at] == COMMENT
        invariant inside == InsideAt(buffer, at) && CommentAt(buffer, at) == CommentAt(buffer, 0)
        decreases |buffer| - at
      {
        ThisMark(buffer, at);
        if at != 0 && buffer[at - 1] != BACKSLASH && buffer[at] == QUOTE {
          inside := !inside;
        } else if buffer[at] == COMMENT && !inside {
          break;
        }
        var next;
        found, next := FindMark(at + 1);
        NoMarks(buffer, at + 1, next);
        at := next;
      }
      CommentFound(buffer, at);
      if found {
        end := at;
      }
      TrimEnd();
    }

    /** AnalyzeLine: the tokens of any line, or the literal that is not terminated. */
    method AnalyzeLine() returns (ok: bool, begin: nat)
      requires Valid() && pos == 0 && end == |buffer| && tokens == []
      modifies this`pos, this`end, this`tokens
      ensures Valid() && EndIsOutside() && Whole(buffer, tokens, end)
      ensures ok ==> Tokenized(buffer, words, tokens, end)
      ensures !ok ==> Tokenized(buffer, words, tokens, begin) && Unterminated(buffer, begin, end)
    {
      LexPreprocess();
      SkipSpace();
      ok, begin := LexTokens();
    }
  }

  /** A quote at begin, and no other before end that is not escaped. */
  ghost predicate Unterminated(buffer: string, begin: nat, end: nat) {
    begin < end <= |buffer| && buffer[begin] == QUOTE && NeverCloses(buffer, begin + 1, end)
  }

  lemma FirstPlace(buffer: string)
    ensures InsideAt(buffer, 0) == (buffer != [] && buffer[0] == QUOTE)
  {
  }

  /** Without a quote or a marker nothing changes. */
  lemma {:induction false} NoMarks(buffer: string, i: nat, j: nat)
    requires i <= j <= |buffer| && forall k :: i <= k < j ==> buffer[k] != QUOTE && buffer[k] != COMMENT
    ensures InsideAt(buffer, j) == InsideAt(buffer, i) && CommentAt(buffer, j) == CommentAt(buffer, i)
  {
    if i < j {
      NoMarks(buffer, i, j - 1);
    }
  }

  lemma ThisMark(buffer: string, at: nat)
    requires at < |buffer|
    ensures InsideAt(buffer, at + 1) == (InsideAt(buffer, at) != (at > 0 && buffer[at] == QUOTE && buffer[at - 1] != BACKSLASH))
    ensures CommentAt(buffer, at) == if buffer[at] == COMMENT && !InsideAt(buffer, at) then at else CommentAt(buffer, at + 1)
  {
  }

  lemma CommentFound(buffer: string, at: nat)
    requires at <= |buffer| && (at < |buffer| ==> buffer[at] == COMMENT && !InsideAt(buffer, at))
    ensures CommentAt(buffer, at) == at
  {
  }

  lemma QuoteIsPlain()
    ensures !IsDelim(QUOTE) && !IsSpace(QUOTE)
  {
  }
}
