/**
 * The scanner (source/scanner.cpp): a cursor over a NUL-terminated source text
 * that hands out one token per call. The pure functions below say what one call
 * of getToken does from a given cursor position; the Scanner class is the
 * cursor itself, and each of its methods is proved to do what they say.
 */
module Scanners {
  import opened Wrappers

  /** Token::Type, in the order of its enumeration. */
  datatype TokenType =
    | LeftParen | RightParen | LeftBrace | RightBrace
    | Comma | Dot | Minus | Plus | Semicolon | Slash | Star
    | Bang | BangEqual | Equal | EqualEqual | Greater | GreaterEqual | Less | LessEqual
    | Identifier | String | Number
    | And | Class | Else | False | For | Fun | If | Nil | Or
    | Print | Return | Super | This | True | Var | While
    | Error | EndOfFile

  /**
   * A token: its type, its text and its line. The start pointer and length of
   * the source become the text itself: a slice of the source, or the message of
   * an error token.
   */
  datatype Token = Token(kind: TokenType, lexeme: string, line: nat)

  /** A C string: one '\0' and only at the end. */
  predicate CString(src: string)
  {
    |src| >= 1 && src[|src| - 1] == '\0' && forall i :: 0 <= i < |src| - 1 ==> src[i] != '\0'
  }

  predicate IsDigit(c: char)
  {
    '0' <= c <= '9'
  }

  predicate IsAlpha(c: char)
  {
    ('a' <= c <= 'z') || ('A' <= c <= 'Z') || c == '_'
  }

  /** peekNext: the character after the current one, or '\0' at the end. */
  function PeekNextAt(src: string, pos: nat): char
    requires CString(src) && pos < |src|
  {
    if src[pos] == '\0' then '\0' else src[pos + 1]
  }

  /** The end of a // comment: the next newline or the terminator. */
  function CommentEnd(src: string, pos: nat): (e: nat)
    requires CString(src) && pos < |src|
    ensures pos <= e < |src| && (src[e] == '\n' || src[e] == '\0')
    ensures forall k :: pos <= k < e ==> src[k] != '\n' && src[k] != '\0'
    decreases |src| - pos
  {
    if src[pos] == '\n' || src[pos] == '\0' then pos else CommentEnd(src, pos + 1)
  }

  /** What skipWhitespace leaves: the cursor on the next token, and the line count after the newlines passed. */
  function SkipWs(src: string, pos: nat, line: nat): (r: (nat, nat))
    requires CString(src) && pos < |src|
    ensures pos <= r.0 < |src| && r.1 >= line
    decreases |src| - pos
  {
    match src[pos]
    case '\n' => SkipWs(src, pos + 1, line + 1)
    case ' ' => SkipWs(src, pos + 1, line)
    case '\r' => SkipWs(src, pos + 1, line)
    case '\t' => SkipWs(src, pos + 1, line)
    case '/' =>
      if PeekNextAt(src, pos) == '/' then SkipWs(src, CommentEnd(src, pos), line) else (pos, line)
    case _ => (pos, line)
  }

  /** The end of a run of digits. */
  function DigitsEnd(src: string, pos: nat): (e: nat)
    requires CString(src) && pos < |src|
    ensures pos <= e < |src| && !IsDigit(src[e])
    ensures forall k :: pos <= k < e ==> IsDigit(src[k])
    decreases |src| - pos
  {
    if IsDigit(src[pos]) then DigitsEnd(src, pos + 1) else pos
  }

  /** The end of a number whose first digit is just before pos: digits, then '.' and digits only if a digit follows the '.'. */
  function NumberEnd(src: string, pos: nat): (e: nat)
    requires CString(src) && pos < |src|
    ensures pos <= e < |src|
  {
    var e := DigitsEnd(src, pos);
    if src[e] == '.' && IsDigit(PeekNextAt(src, e)) then DigitsEnd(src, e + 1) else e
  }

  /** The end of an identifier whose first character is just before pos. */
  function IdentEnd(src: string, pos: nat): (e: nat)
    requires CString(src) && pos < |src|
    ensures pos <= e < |src| && !IsAlpha(src[e]) && !IsDigit(src[e])
    ensures forall k :: pos <= k < e ==> IsAlpha(src[k]) || IsDigit(src[k])
    decreases |src| - pos
  {
    if IsAlpha(src[pos]) || IsDigit(src[pos]) then IdentEnd(src, pos + 1) else pos
  }

  /** The number of newlines in a text. */
  function Newlines(s: string): nat
  {
    if s == [] then 0 else Newlines(s[..|s| - 1]) + (if s[|s| - 1] == '\n' then 1 else 0)
  }

  /** The end of a string literal's body, the closing quote or the terminator, with the line count after its newlines. */
  function StringEnd(src: string, pos: nat, line: nat): (r: (nat, nat))
    requires CString(src) && pos < |src|
    ensures pos <= r.0 < |src| && (src[r.0] == '"' || src[r.0] == '\0')
    ensures forall k :: pos <= k < r.0 ==> src[k] != '"' && src[k] != '\0'
    ensures r.1 == line + Newlines(src[pos..r.0])
    decreases |src| - pos
  {
    if src[pos] == '"' || src[pos] == '\0' then (pos, line)
    else
      var r := StringEnd(src, pos + 1, line + (if src[pos] == '\n' then 1 else 0));
      NewlinesCons(src[pos..r.0]);
      assert src[pos..r.0][1..] == src[pos + 1..r.0];
      r
  }

  lemma {:induction false} NewlinesCons(s: string)
    requires s != []
    ensures Newlines(s) == (if s[0] == '\n' then 1 else 0) + Newlines(s[1..])
  {
    if |s| > 1 {
      NewlinesCons(s[..|s| - 1]);
      assert s[..|s| - 1][1..] == s[1..][..|s[1..]| - 1];
    }
  }

  /** The tokens made of one character whatever follows it. */
  function SingleCharKind(c: char): Option<TokenType>
  {
    match c
    case '(' => Some(LeftParen)
    case ')' => Some(RightParen)
    case '{' => Some(LeftBrace)
    case '}' => Some(RightBrace)
    case ';' => Some(Semicolon)
    case ',' => Some(Comma)
    case '.' => Some(Dot)
    case '-' => Some(Minus)
    case '+' => Some(Plus)
    case '/' => Some(Slash)
    case '*' => Some(Star)
    case _ => None
  }

  /** The characters that form a two-character token when '=' follows: the pair (one character, with '='). */
  function PairKinds(c: char): Option<(TokenType, TokenType)>
  {
    match c
    case '!' => Some((Bang, BangEqual))
    case '=' => Some((Equal, EqualEqual))
    case '<' => Some((Less, LessEqual))
    case '>' => Some((Greater, GreaterEqual))
    case _ => None
  }

  /** checkKeyword: the lexeme is exactly the keyword whose remaining characters, from offset start, are rest. */
  function CheckKeyword(lexeme: string, start: nat, length: nat, rest: string, kind: TokenType): (t: TokenType)
    requires |rest| == length
    ensures t == kind || t == Identifier
  {
    if |lexeme| == start + length && lexeme[start..] == rest then kind else Identifier
  }

  /** identifierType: a trie over the first one or two characters, then checkKeyword. */
  function IdentifierType(lexeme: string): TokenType
    requires |lexeme| >= 1
  {
    match lexeme[0]
    case 'a' => CheckKeyword(lexeme, 1, 2, "nd", And)
    case 'c' => CheckKeyword(lexeme, 1, 4, "lass", Class)
    case 'e' => CheckKeyword(lexeme, 1, 3, "lse", Else)
    case 'f' =>
      if |lexeme| > 1 then
        match lexeme[1]
        case 'a' => CheckKeyword(lexeme, 2, 3, "lse", False)
        case 'o' => CheckKeyword(lexeme, 2, 1, "r", For)
        case 'u' => CheckKeyword(lexeme, 2, 1, "n", Fun)
        case _ => Identifier
      else Identifier
    case 'i' => CheckKeyword(lexeme, 1, 1, "f", If)
    case 'n' => CheckKeyword(lexeme, 1, 2, "il", Nil)
    case 'o' => CheckKeyword(lexeme, 1, 1, "r", Or)
    case 'p' => CheckKeyword(lexeme, 1, 4, "rint", Print)
    case 'r' => CheckKeyword(lexeme, 1, 5, "eturn", Return)
    case 's' => CheckKeyword(lexeme, 1, 4, "uper", Super)
    case 't' =>
      if |lexeme| > 1 then
        match lexeme[1]
        case 'h' => CheckKeyword(lexeme, 2, 2, "is", This)
        case 'r' => CheckKeyword(lexeme, 2, 2, "ue", True)
        case _ => Identifier
      else Identifier
    case 'v' => CheckKeyword(lexeme, 1, 2, "ar", Var)
    case 'w' => CheckKeyword(lexeme, 1, 4, "hile", While)
    case _ => Identifier
  }

  /** The sixteen keywords, looked up by their whole text. */
  function KeywordKind(lexeme: string): TokenType
  {
    if lexeme == "and" then And
    else if lexeme == "class" then Class
    else if lexeme == "else" then Else
    else if lexeme == "false" then False
    else if lexeme == "for" then For
    else if lexeme == "fun" then Fun
    else if lexeme == "if" then If
    else if lexeme == "nil" then Nil
    else if lexeme == "or" then Or
    else if lexeme == "print" then Print
    else if lexeme == "return" then Return
    else if lexeme == "super" then Super
    else if lexeme == "this" then This
    else if lexeme == "true" then True
    else if lexeme == "var" then Var
    else if lexeme == "while" then While
    else Identifier
  }

  /** checkKeyword accepts exactly the lexeme made of its first start characters and rest. */
  lemma CheckKeywordMeans(lexeme: string, prefix: string, rest: string, kind: TokenType)
    requires |prefix| <= |lexeme| && lexeme[..|prefix|] == prefix
    ensures CheckKeyword(lexeme, |prefix|, |rest|, rest, kind) == if lexeme == prefix + rest then kind else Identifier
  {
    var start := |prefix|;
    assert lexeme == lexeme[..start] + lexeme[start..];
  }

  /** Every keyword's text is typed as that keyword: the first eight. */
  lemma KeywordsRecognisedAToN()
    ensures IdentifierType("and") == And && IdentifierType("class") == Class
    ensures IdentifierType("else") == Else && IdentifierType("false") == False
    ensures IdentifierType("for") == For && IdentifierType("fun") == Fun
    ensures IdentifierType("if") == If && IdentifierType("nil") == Nil
  {
  }

  /** Every keyword's text is typed as that keyword: the last eight. */
  lemma KeywordsRecognisedOToW()
    ensures IdentifierType("or") == Or && IdentifierType("print") == Print
    ensures IdentifierType("return") == Return && IdentifierType("super") == Super
    ensures IdentifierType("this") == This && IdentifierType("true") == True
    ensures IdentifierType("var") == Var && IdentifierType("while") == While
  {
  }

  /** Whatever the trie types as other than an identifier is that keyword's whole text. */
  lemma RecognisedAreKeywords(lexeme: string)
    requires |lexeme| >= 1 && IdentifierType(lexeme) != Identifier
    ensures KeywordKind(lexeme) == IdentifierType(lexeme)
  {
    var c := lexeme[0];
    if c == 'a' { CheckKeywordMeans(lexeme, "a", "nd", And); assert lexeme == "and"; }
    else if c == 'c' { CheckKeywordMeans(lexeme, "c", "lass", Class); assert lexeme == "class"; }
    else if c == 'e' { CheckKeywordMeans(lexeme, "e", "lse", Else); assert lexeme == "else"; }
    else if c == 'i' { CheckKeywordMeans(lexeme, "i", "f", If); assert lexeme == "if"; }
    else if c == 'n' { CheckKeywordMeans(lexeme, "n", "il", Nil); assert lexeme == "nil"; }
    else if c == 'o' { CheckKeywordMeans(lexeme, "o", "r", Or); assert lexeme == "or"; }
    else if c == 'p' { CheckKeywordMeans(lexeme, "p", "rint", Print); assert lexeme == "print"; }
    else if c == 'r' { CheckKeywordMeans(lexeme, "r", "eturn", Return); assert lexeme == "return"; }
    else if c == 's' { CheckKeywordMeans(lexeme, "s", "uper", Super); assert lexeme == "super"; }
    else if c == 'v' { CheckKeywordMeans(lexeme, "v", "ar", Var); assert lexeme == "var"; }
    else if c == 'w' { CheckKeywordMeans(lexeme, "w", "hile", While); assert lexeme == "while"; }
    else if c == 'f' && |lexeme| > 1 {
      var d := lexeme[1];
      assert lexeme[..2] == [c, d];
      if d == 'a' { CheckKeywordMeans(lexeme, "fa", "lse", False); assert lexeme == "false"; }
      else if d == 'o' { CheckKeywordMeans(lexeme, "fo", "r", For); assert lexeme == "for"; }
      else if d == 'u' { CheckKeywordMeans(lexeme, "fu", "n", Fun); assert lexeme == "fun"; }
    } else if c == 't' && |lexeme| > 1 {
      var d := lexeme[1];
      assert lexeme[..2] == [c, d];
      if d == 'h' { CheckKeywordMeans(lexeme, "th", "is", This); assert lexeme == "this"; }
      else if d == 'r' { CheckKeywordMeans(lexeme, "tr", "ue", True); assert lexeme == "true"; }
    }
  }

  /** The trie of identifierType recognises a keyword exactly when the lexeme is that keyword's whole text. */
  lemma IdentifierTypeIsKeywordLookup(lexeme: string)
    requires |lexeme| >= 1
    ensures IdentifierType(lexeme) == KeywordKind(lexeme)
  {
    if IdentifierType(lexeme) != Identifier {
      RecognisedAreKeywords(lexeme);
    } else if lexeme in {"and", "class", "else", "false", "for", "fun", "if", "nil"} {
      KeywordsRecognisedAToN();
    } else {
      KeywordsRecognisedOToW();
    }
  }

  /** errorToken: an Error token whose text is the message; the source leaves its line unset. */
  function ErrorToken(message: string): (t: Token)
    ensures t.kind == Error && t.lexeme == message
  {
    Token(Error, message, 0)
  }

  /** The outcome of one getToken call: the token and the new start, cursor and line. */
  datatype ScanResult = ScanResult(token: Token, start: nat, current: nat, line: nat)

  /** What one call of getToken returns and leaves, from cursor pos on line line. */
  function ScanToken(src: string, pos: nat, line: nat): (r: ScanResult)
    requires CString(src) && pos < |src|
    ensures pos <= r.start <= r.current < |src|
    ensures r.token.kind != EndOfFile ==> r.start < r.current
  {
    var (p, l) := SkipWs(src, pos, line);
    ScanAt(src, p, l)
  }

  /** The token that starts at p, once the whitespace before it is skipped. */
  function ScanAt(src: string, p: nat, l: nat): (r: ScanResult)
    requires CString(src) && p < |src|
    ensures r.start == p <= r.current < |src|
    ensures r.token.kind != EndOfFile ==> p < r.current
  {
    if src[p] == '\0' then ScanResult(Token(EndOfFile, src[p..p], l), p, p, l)
    else
      var c := src[p];
      if IsAlpha(c) then
        var e := IdentEnd(src, p + 1);
        ScanResult(Token(IdentifierType(src[p..e]), src[p..e], l), p, e, l)
      else if IsDigit(c) then
        var e := NumberEnd(src, p + 1);
        ScanResult(Token(Number, src[p..e], l), p, e, l)
      else if SingleCharKind(c).Some? then
        ScanResult(Token(SingleCharKind(c).value, src[p..p + 1], l), p, p + 1, l)
      else if PairKinds(c).Some? then
        if src[p + 1] == '=' then ScanResult(Token(PairKinds(c).value.1, src[p..p + 2], l), p, p + 2, l)
        else ScanResult(Token(PairKinds(c).value.0, src[p..p + 1], l), p, p + 1, l)
      else if c == '"' then
        var (e, l2) := StringEnd(src, p + 1, l);
        if src[e] == '\0' then ScanResult(ErrorToken("Unterminated string."), p, e, l2)
        else ScanResult(Token(String, src[p..e + 1], l2), p, e + 1, l2)
      else ScanResult(ErrorToken("Unexpected character."), p, p + 1, l)
  }

  /** The token at p when it starts with a letter: an identifier or keyword. */
  lemma ScanAtIdentifier(src: string, p: nat, l: nat)
    requires CString(src) && p < |src| && src[p] != '\0' && IsAlpha(src[p])
    ensures var e := IdentEnd(src, p + 1);
      ScanAt(src, p, l) == ScanResult(Token(IdentifierType(src[p..e]), src[p..e], l), p, e, l)
  {
  }

  /** The token at p when it starts with a digit: a number. */
  lemma ScanAtNumber(src: string, p: nat, l: nat)
    requires CString(src) && p < |src| && src[p] != '\0' && !IsAlpha(src[p]) && IsDigit(src[p])
    ensures var e := NumberEnd(src, p + 1);
      ScanAt(src, p, l) == ScanResult(Token(Number, src[p..e], l), p, e, l)
  {
  }

  /** The token at p when it starts with '!', '=', '<' or '>': one character, or two when '=' follows. */
  lemma ScanAtPair(src: string, p: nat, l: nat)
    requires CString(src) && p < |src| && src[p] != '\0' && !IsAlpha(src[p]) && !IsDigit(src[p])
    requires SingleCharKind(src[p]).None? && PairKinds(src[p]).Some?
    ensures var kinds := PairKinds(src[p]).value;
      ScanAt(src, p, l) ==
        if src[p + 1] == '=' then ScanResult(Token(kinds.1, src[p..p + 2], l), p, p + 2, l)
        else ScanResult(Token(kinds.0, src[p..p + 1], l), p, p + 1, l)
  {
  }

  lemma {:induction false} NewlinesAppend(a: string, b: string)
    ensures Newlines(a + b) == Newlines(a) + Newlines(b)
    decreases |b|
  {
    if b == [] {
      assert a + b == a;
    } else {
      assert (a + b)[..|a + b| - 1] == a + b[..|b| - 1];
      NewlinesAppend(a, b[..|b| - 1]);
    }
  }

  lemma {:induction false} NewlinesNone(s: string)
    requires forall k :: 0 <= k < |s| ==> s[k] != '\n'
    ensures Newlines(s) == 0
  {
    if s != [] {
      NewlinesNone(s[..|s| - 1]);
    }
  }

  /**
   * skipWhitespace stops on a character that is not a blank, a newline or the
   * start of a // comment, and the line count grows by the newlines passed.
   */
  lemma {:induction false} SkipWsStops(src: string, pos: nat, line: nat)
    requires CString(src) && pos < |src|
    ensures var r := SkipWs(src, pos, line);
      src[r.0] != ' ' && src[r.0] != '\r' && src[r.0] != '\t' && src[r.0] != '\n' &&
      !(src[r.0] == '/' && PeekNextAt(src, r.0) == '/') &&
      r.1 == line + Newlines(src[pos..r.0])
    decreases |src| - pos
  {
    var c := src[pos];
    if c == '\n' || c == ' ' || c == '\r' || c == '\t' {
      var step := if c == '\n' then 1 else 0;
      SkipWsStops(src, pos + 1, line + step);
      NewlinesFrom(src, pos, SkipWs(src, pos, line).0);
    } else if c == '/' && PeekNextAt(src, pos) == '/' {
      var e := CommentEnd(src, pos);
      SkipWsStops(src, e, line);
      NewlinesAfterComment(src, pos, SkipWs(src, e, line).0);
    } else {
      assert src[pos..pos] == [];
    }
  }

  /** The newlines from pos on: the one at pos, if it is one, and those after it. */
  lemma NewlinesFrom(src: string, pos: nat, p: nat)
    requires pos < p <= |src|
    ensures Newlines(src[pos..p]) == (if src[pos] == '\n' then 1 else 0) + Newlines(src[pos + 1..p])
  {
    var c := src[pos];
    assert src[pos..p] == [c] + src[pos + 1..p];
    NewlinesAppend([c], src[pos + 1..p]);
    assert [c][..0] == [];
  }

  /** A // comment holds no newline: the newlines from its start are those from its end. */
  lemma NewlinesAfterComment(src: string, pos: nat, p: nat)
    requires CString(src) && pos < |src| && CommentEnd(src, pos) <= p <= |src|
    ensures Newlines(src[pos..p]) == Newlines(src[CommentEnd(src, pos)..p])
  {
    var e := CommentEnd(src, pos);
    assert src[pos..p] == src[pos..e] + src[e..p];
    NewlinesAppend(src[pos..e], src[e..p]);
    NewlinesNone(src[pos..e]);
  }

  /** The newlines inside a token are counted: the line after it is the line before plus the newlines it spans. */
  lemma ScanAtLines(src: string, p: nat, l: nat)
    requires CString(src) && p < |src| && src[p] != '\n'
    ensures var r := ScanAt(src, p, l); r.line == l + Newlines(src[p..r.current])
  {
    var r := ScanAt(src, p, l);
    if src[p] == '"' {
      StringLines(src, p, l);
    } else {
      assert forall k :: p <= k < r.current ==> src[k] != '\n' by {
        if IsDigit(src[p]) && src[p] != '\0' {
          var d := DigitsEnd(src, p + 1);
          if src[d] == '.' && IsDigit(PeekNextAt(src, d)) {
            assert forall k :: d + 1 <= k < DigitsEnd(src, d + 1) ==> IsDigit(src[k]);
          }
        }
      }
      NewlinesNone(src[p..r.current]);
    }
  }

  lemma StringLines(src: string, p: nat, l: nat)
    requires CString(src) && p < |src| && src[p] == '"'
    ensures var r := ScanAt(src, p, l); r.line == l + Newlines(src[p..r.current])
  {
    var c := src[p];
    var (e, l2) := StringEnd(src, p + 1, l);
    var r := ScanAt(src, p, l);
    assert r.line == l2 && r.current == (if src[e] == '\0' then e else e + 1);
    NewlinesAppend([c], src[p + 1..e]);
    assert [c][..0] == [];
    if src[e] == '\0' {
      assert src[p..e] == [c] + src[p + 1..e];
    } else {
      assert src[p..e + 1] == [c] + src[p + 1..e] + [src[e]];
      NewlinesAppend([c] + src[p + 1..e], [src[e]]);
      assert [src[e]][..0] == [];
    }
  }

  /** m_line counts the newlines the cursor has passed: one call of getToken adds the newlines it moved over. */
  lemma ScanTokenLines(src: string, pos: nat, line: nat)
    requires CString(src) && pos < |src|
    ensures var r := ScanToken(src, pos, line); r.line == line + Newlines(src[pos..r.current])
  {
    var (p, l) := SkipWs(src, pos, line);
    assert l == line + Newlines(src[pos..p]) && src[p] != '\n' by {
      SkipWsStops(src, pos, line);
    }
    var r := ScanAt(src, p, l);
    assert r == ScanToken(src, pos, line);
    assert r.line == l + Newlines(src[p..r.current]) by {
      ScanAtLines(src, p, l);
    }
    assert src[pos..r.current] == src[pos..p] + src[p..r.current];
    NewlinesAppend(src[pos..p], src[p..r.current]);
  }

  /** If the line count was one plus the newlines before the cursor, it still is after getToken. */
  lemma ScanTokenKeepsLineCount(src: string, pos: nat, line: nat)
    requires CString(src) && pos < |src|
    ensures var r := ScanToken(src, pos, line);
      line == 1 + Newlines(src[..pos]) ==> r.line == 1 + Newlines(src[..r.current])
  {
    var r := ScanToken(src, pos, line);
    ScanTokenLines(src, pos, line);
    assert src[..r.current] == src[..pos] + src[pos..r.current];
    NewlinesAppend(src[..pos], src[pos..r.current]);
  }

  /** At the end of the text getToken returns EndOfFile again and again without moving the cursor. */
  lemma ScanTokenAtEnd(src: string, pos: nat, line: nat)
    requires CString(src) && pos < |src|
    requires ScanToken(src, pos, line).token.kind == EndOfFile
    ensures var r := ScanToken(src, pos, line);
      r.current == |src| - 1 && r.token == Token(EndOfFile, [], r.line) &&
      ScanToken(src, r.current, r.line) == r
  {
  }

  /** Every token but an error is the source text between start and the cursor, on the current line. */
  lemma ScanTokenLexeme(src: string, pos: nat, line: nat)
    requires CString(src) && pos < |src|
    ensures var r := ScanToken(src, pos, line);
      r.token.kind != Error ==> r.token.lexeme == src[r.start..r.current] && r.token.line == r.line
  {
  }

  /** A number lexeme: digits, then '.' and digits. */
  predicate IsNumberText(s: string)
  {
    (|s| >= 1 && AllDigits(s)) ||
    exists i :: 1 <= i < |s| - 1 && s[i] == '.' && AllDigits(s[..i]) && AllDigits(s[i + 1..])
  }

  predicate AllDigits(s: string)
  {
    forall k :: 0 <= k < |s| ==> IsDigit(s[k])
  }

  /**
   * A number token is a number lexeme that cannot be extended: no digit follows
   * it, nor a '.' with a digit after it.
   */
  lemma NumberIsMaximal(src: string, p: nat, l: nat)
    requires CString(src) && p < |src| && IsDigit(src[p])
    ensures var r := ScanAt(src, p, l);
      r.token.kind == Number && IsNumberText(r.token.lexeme) && !IsDigit(src[r.current]) &&
      ('.' !in r.token.lexeme ==> !(src[r.current] == '.' && IsDigit(PeekNextAt(src, r.current))))
  {
    var r := ScanAt(src, p, l);
    var d := DigitsEnd(src, p + 1);
    var s := r.token.lexeme;
    assert r.current == NumberEnd(src, p + 1) && d <= r.current;
    assert s == src[p..r.current];
    var i := d - p;
    assert AllDigits(s[..i]) by {
      assert s[..i] == src[p..d];
    }
    if src[d] == '.' && IsDigit(PeekNextAt(src, d)) {
      assert src[d + 1] != '\0';
      assert r.current == DigitsEnd(src, d + 1);
      assert AllDigits(s[i + 1..]) by {
        assert s[i + 1..] == src[d + 1..r.current];
      }
      assert s[i] == '.' && i + 1 < |s|;
    } else {
      assert s[..i] == s;
      assert '.' !in s;
    }
  }

  /**
   * '!', '=', '<' and '>' take the following '=' into a two-character token;
   * otherwise they are one-character tokens.
   */
  lemma PairTokens(src: string, p: nat, l: nat)
    requires CString(src) && p < |src| && src[p] in {'!', '=', '<', '>'}
    ensures var r := ScanAt(src, p, l);
      r.current == p + (if src[p + 1] == '=' then 2 else 1) &&
      r.token.lexeme == src[p..r.current] &&
      r.token.kind == match (src[p], src[p + 1] == '=')
        case ('!', true) => BangEqual case ('!', false) => Bang
        case ('=', true) => EqualEqual case ('=', false) => Equal
        case ('<', true) => LessEqual case ('<', false) => Less
        case (_, true) => GreaterEqual case (_, false) => Greater
  {
  }

  /** A character that starts no token is one Error token, and only that character is consumed. */
  lemma UnexpectedCharacter(src: string, p: nat, l: nat)
    requires CString(src) && p < |src| && src[p] != '\0'
    requires !IsAlpha(src[p]) && !IsDigit(src[p]) && src[p] != '"'
    requires src[p] !in {'(', ')', '{', '}', ';', ',', '.', '-', '+', '/', '*', '!', '=', '<', '>'}
    ensures ScanAt(src, p, l) == ScanResult(ErrorToken("Unexpected character."), p, p + 1, l)
  {
  }

  /**
   * A string token runs from the opening quote to the closing one; without a
   * closing quote the text ends in an "Unterminated string." error.
   */
  lemma StringToken(src: string, p: nat, l: nat)
    requires CString(src) && p < |src| && src[p] == '"'
    ensures var r := ScanAt(src, p, l);
      (r.token.kind == String || r.token == ErrorToken("Unterminated string.")) &&
      (forall k :: p < k < r.current - 1 ==> src[k] != '"') &&
      (r.token.kind == String <==> src[r.current - 1] == '"' && r.current - 1 > p) &&
      (r.token.kind == String ==> r.token.lexeme == src[p..r.current]) &&
      (r.token.kind != String ==> src[r.current] == '\0')
  {
  }

  /** The tokens getToken hands out from a cursor, up to and including the first EndOfFile. */
  function Tokens(src: string, pos: nat, line: nat): (ts: seq<Token>)
    requires CString(src) && pos < |src|
    ensures |ts| >= 1 && ts[0] == ScanToken(src, pos, line).token && ts[|ts| - 1].kind == EndOfFile
    ensures forall i :: 0 <= i < |ts| - 1 ==> ts[i].kind != EndOfFile
    decreases |src| - pos
  {
    var r := ScanToken(src, pos, line);
    if r.token.kind == EndOfFile then [r.token]
    else
      var rest := Tokens(src, r.current, r.line);
      EndsOnce(r.token, rest);
      [r.token] + rest
  }

  /** A token other than EndOfFile in front of a stream whose only EndOfFile is its last token. */
  lemma EndsOnce(t: Token, rest: seq<Token>)
    requires t.kind != EndOfFile && |rest| >= 1 && rest[|rest| - 1].kind == EndOfFile
    requires forall i :: 0 <= i < |rest| - 1 ==> rest[i].kind != EndOfFile
    ensures ([t] + rest)[|rest|].kind == EndOfFile
    ensures forall i :: 0 <= i < |rest| ==> ([t] + rest)[i].kind != EndOfFile
  {
    forall i | 0 <= i < |rest|
      ensures ([t] + rest)[i].kind != EndOfFile
    {
      if i > 0 {
        assert ([t] + rest)[i] == rest[i - 1];
      }
    }
  }

  /**
   * One getToken call takes the first token of the stream and leaves the rest;
   * once only EndOfFile is left, it stays.
   */
  lemma TokensStep(src: string, pos: nat, line: nat)
    requires CString(src) && pos < |src|
    ensures var r := ScanToken(src, pos, line);
      var ts := Tokens(src, pos, line);
      Tokens(src, r.current, r.line) == (if |ts| == 1 then ts else ts[1..])
  {
    var r := ScanToken(src, pos, line);
    if r.token.kind == EndOfFile {
      ScanTokenAtEnd(src, pos, line);
    }
  }

  /** "12." is the number 12 followed by a dot: the '.' is not part of a number unless a digit follows it. */
  lemma TrailingDotIsNotPartOfNumber()
    ensures ScanToken("12.\0", 0, 1) == ScanResult(Token(Number, "12", 1), 0, 2, 1)
    ensures ScanToken("12.\0", 2, 1) == ScanResult(Token(Dot, ".", 1), 2, 3, 1)
  {
    var src := "12.\0";
    assert SkipWs(src, 0, 1) == (0, 1);
    assert DigitsEnd(src, 1) == 2;
    assert SkipWs(src, 2, 1) == (2, 1);
  }

  /** The cursor of the scanner: m_start, m_current and m_line over the source text. */
  class Scanner {
    const source: string
    var start: nat
    var current: nat
    var line: nat

    ghost predicate Valid()
      reads this
    {
      CString(source) && start <= current < |source|
    }

    /** m_line is one plus the number of newlines before the cursor. */
    ghost predicate LineCounted()
      reads this
    {
      current <= |source| && line == 1 + Newlines(source[..current])
    }

    /** Scanner(source): both pointers at the first character, line 1. */
    constructor (text: string)
      requires CString(text)
      ensures Valid() && LineCounted() && source == text && start == 0 && current == 0 && line == 1
    {
      source := text;
      start, current, line := 0, 0, 1;
    }

    /** advance: returns the current character and steps past it. */
    method Advance() returns (c: char)
      requires Valid() && source[current] != '\0'
      modifies this`current
      ensures Valid() && c == source[old(current)] && current == old(current) + 1
    {
      c := source[current];
      current := current + 1;
    }

    /** match: steps past the current character only when it is the expected one and not the terminator. */
    method Match(expected: char) returns (matched: bool)
      requires Valid()
      modifies this`current
      ensures Valid()
      ensures matched <==> old(source[current]) != '\0' && old(source[current]) == expected
      ensures current == old(current) + (if matched then 1 else 0)
    {
      if source[current] == '\0' || source[current] != expected {
        return false;
      }
      current := current + 1;
      return true;
    }

    /** peekNext. */
    method PeekNext() returns (c: char)
      requires Valid()
      ensures c == PeekNextAt(source, current)
    {
      if source[current] == '\0' {
        return '\0';
      }
      return source[current + 1];
    }

    /** skipWhitespace: the loop over blanks, newlines and // comments. */
    method SkipWhitespace()
      requires Valid()
      modifies this`current, this`line
      ensures Valid() && (current, line) == SkipWs(source, old(current), old(line))
    {
      while true
        invariant Valid() && SkipWs(source, current, line) == SkipWs(source, old(current), old(line))
        decreases |source| - current
      {
        var c := source[current];
        if c == '\n' {
          line := line + 1;
          current := current + 1;
        } else if c == ' ' || c == '\r' || c == '\t' {
          current := current + 1;
        } else if c == '/' {
          var next := PeekNext();
          if next == '/' {
            ghost var from, fromLine := current, line;
            while source[current] != '\n' && source[current] != '\0'
              invariant Valid() && from <= current <= CommentEnd(source, from) && line == fromLine
              invariant forall k :: from <= k < current ==> source[k] != '\n' && source[k] != '\0'
              decreases |source| - current
            {
              current := current + 1;
            }
            assert current == CommentEnd(source, from);
            assert SkipWs(source, from, line) == SkipWs(source, current, line);
          } else {
            return;
          }
        } else {
          return;
        }
      }
    }

    /** makeToken: the text from start to the cursor, on the current line. */
    method MakeToken(kind: TokenType) returns (token: Token)
      requires Valid()
      ensures token == Token(kind, source[start..current], line)
    {
      token := Token(kind, source[start..current], line);
    }

    /** string: the body up to the closing quote, counting newlines; an error if the text ends first. */
    method StringLiteral() returns (token: Token)
      requires Valid() && start < current
      modifies this`current, this`line
      ensures Valid()
      ensures var (e, l) := StringEnd(source, old(current), old(line));
        line == l &&
        if source[e] == '\0' then token == ErrorToken("Unterminated string.") && current == e
        else token == Token(String, source[start..e + 1], l) && current == e + 1
    {
      while source[current] != '"' && source[current] != '\0'
        invariant Valid() && old(current) <= current
        invariant StringEnd(source, current, line) == StringEnd(source, old(current), old(line))
        decreases |source| - current
      {
        if source[current] == '\n' {
          line := line + 1;
        }
        var _ := Advance();
      }
      if source[current] == '\0' {
        return ErrorToken("Unterminated string.");
      }
      var _ := Advance();
      token := MakeToken(String);
    }

    /** number: a digit run, then '.' and a digit run only if a digit follows the '.'. */
    method NumberLiteral() returns (token: Token)
      requires Valid() && start < current
      modifies this`current
      ensures Valid() && current == NumberEnd(source, old(current))
      ensures token == Token(Number, source[start..current], line)
    {
      while IsDigit(source[current])
        invariant Valid() && old(current) <= current <= DigitsEnd(source, old(current))
        decreases |source| - current
      {
        current := current + 1;
      }
      var next := PeekNext();
      if source[current] == '.' && IsDigit(next) {
        current := current + 1;
        ghost var from := current;
        while IsDigit(source[current])
          invariant Valid() && from <= current <= DigitsEnd(source, from)
          decreases |source| - current
        {
          current := current + 1;
        }
      }
      token := MakeToken(Number);
    }

    /** identifier: a run of letters, digits and underscores, typed by identifierType. */
    method IdentifierLiteral() returns (token: Token)
      requires Valid() && start < current
      modifies this`current
      ensures Valid() && current == IdentEnd(source, old(current))
      ensures token == Token(IdentifierType(source[start..current]), source[start..current], line)
    {
      while IsAlpha(source[current]) || IsDigit(source[current])
        invariant Valid() && old(current) <= current <= IdentEnd(source, old(current))
        decreases |source| - current
      {
        current := current + 1;
      }
      token := MakeToken(IdentifierType(source[start..current]));
    }

    /** getToken. */
    method GetToken() returns (token: Token)
      requires Valid()
      modifies this
      ensures Valid()
      ensures ScanToken(source, old(current), old(line)) == ScanResult(token, start, current, line)
      ensures old(LineCounted()) ==> LineCounted()
    {
      ScanTokenKeepsLineCount(source, current, line);
      SkipWhitespace();
      start := current;
      assert ScanToken(source, old(current), old(line)) == ScanAt(source, start, line);
      if source[current] == '\0' {
        token := MakeToken(EndOfFile);
        return;
      }
      var c := Advance();
      if IsAlpha(c) {
        ScanAtIdentifier(source, start, line);
        token := IdentifierLiteral();
        return;
      }
      if IsDigit(c) {
        ScanAtNumber(source, start, line);
        token := NumberLiteral();
        return;
      }
      var single := SingleCharKind(c);
      if single.Some? {
        token := MakeToken(single.value);
        return;
      }
      var pair := PairKinds(c);
      if pair.Some? {
        ScanAtPair(source, start, line);
        var matched := Match('=');
        token := MakeToken(if matched then pair.value.1 else pair.value.0);
        return;
      }
      if c == '"' {
        token := StringLiteral();
        return;
      }
      token := ErrorToken("Unexpected character.");
    }
  }
}
