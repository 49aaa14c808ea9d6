/**
 * What the single-pass compiler (source/compiler.cpp) computes: a Pratt parser
 * over the scanner's tokens that writes postfix bytecode into a chunk as it
 * parses.
 *
 * Each function takes a Parser value, the compiler's fields together with the
 * tokens the scanner has still to hand out and the chunk's contents, and says
 * what the member function of the same name leaves behind. The Compiler class
 * (module Compilers) does the same work in place and is proved against these
 * functions; the parsing theorem below says what they compute on well-formed
 * arithmetic.
 */
module Parsing {
  import opened Wrappers
  import opened Scanners
  import opened Chunks
  import Values

  /** Compiler::Precedence, numbered as the enumeration numbers it. */
  const PrecNone: nat := 0
  const PrecAssignment: nat := 1
  const PrecOr: nat := 2
  const PrecAnd: nat := 3
  const PrecEquality: nat := 4
  const PrecComparison: nat := 5
  const PrecTerm: nat := 6
  const PrecFactor: nat := 7
  const PrecUnary: nat := 8
  const PrecCall: nat := 9
  const PrecPrimary: nat := 10

  /** The parse functions the rules table points at. */
  datatype ParseFn = GroupingFn | UnaryFn | BinaryFn | NumberFn

  /** One row of s_rules. */
  datatype ParseRule = ParseRule(prefix: Option<ParseFn>, infix: Option<ParseFn>, precedence: nat)

  /** getRule: the s_rules row of a token type. */
  function GetRule(kind: TokenType): ParseRule
  {
    match kind
    case LeftParen => ParseRule(Some(GroupingFn), None, PrecNone)
    case Minus => ParseRule(Some(UnaryFn), Some(BinaryFn), PrecTerm)
    case Plus => ParseRule(None, Some(BinaryFn), PrecTerm)
    case Slash => ParseRule(None, Some(BinaryFn), PrecFactor)
    case Star => ParseRule(None, Some(BinaryFn), PrecFactor)
    case Number => ParseRule(Some(NumberFn), None, PrecNone)
    case _ => ParseRule(None, None, PrecNone)
  }

  /** The four arithmetic operator tokens. */
  predicate Arithmetic(kind: TokenType)
  {
    kind == Plus || kind == Minus || kind == Star || kind == Slash
  }

  /** Only the four arithmetic operators bind as infix operators; each of them has the binary rule. */
  lemma InfixRules(kind: TokenType)
    ensures GetRule(kind).precedence >= PrecAssignment <==> Arithmetic(kind)
    ensures GetRule(kind).precedence >= PrecAssignment ==> GetRule(kind).infix == Some(BinaryFn)
    ensures GetRule(kind).precedence <= PrecFactor
    ensures GetRule(kind).prefix.Some? <==> (kind == LeftParen || kind == Minus || kind == Number)
  {
  }

  /** A token stream as the scanner hands it out: it ends with EndOfFile. */
  predicate Stream(ts: seq<Token>)
  {
    |ts| >= 1 && ts[|ts| - 1].kind == EndOfFile
  }

  /** The stream after one more getToken call: EndOfFile, once it is the last token, is handed out again. */
  function Remaining(ts: seq<Token>): (rest: seq<Token>)
    requires Stream(ts)
    ensures Stream(rest) && |rest| <= |ts| && (ts[0].kind != EndOfFile ==> |rest| == |ts| - 1)
  {
    if |ts| == 1 then ts else ts[1..]
  }

  /** One getToken call hands out the first token of the stream and leaves the rest of it. */
  lemma TokensAdvance(src: string, pos: nat, line: nat)
    requires CString(src) && pos < |src|
    ensures var r := ScanToken(src, pos, line);
      r.token == Tokens(src, pos, line)[0] && r.current < |src| &&
      Tokens(src, r.current, r.line) == Remaining(Tokens(src, pos, line))
  {
    TokensStep(src, pos, line);
  }

  /**
   * The compiler's state: m_previous, m_current, the two error flags, the
   * tokens the scanner will hand out next, and the chunk's code, the line of
   * each code byte and the constant pool.
   */
  datatype Parser = Parser(
    previous: Token, current: Token, rest: seq<Token>,
    hadError: bool, panicMode: bool,
    code: seq<CodeByte>, lines: seq<nat>, constants: seq<Values.Value>)
  {
    predicate Valid()
    {
      Stream(rest) && |lines| == |code|
    }

    /** The number of tokens still to be consumed, counting the current one unless it is EndOfFile. */
    function Measure(): nat
    {
      |rest| + (if current.kind == EndOfFile then 0 else 1)
    }
  }

  /** Two states with the same chunk contents and error flags. */
  predicate SameOutput(a: Parser, p: Parser)
  {
    a.code == p.code && a.lines == p.lines && a.constants == p.constants &&
    a.hadError == p.hadError && a.panicMode == p.panicMode
  }

  /** What may change between two states: the chunk only grows, and an error once reported stays reported. */
  predicate Grows(p: Parser, q: Parser)
  {
    q.Valid() && q.Measure() <= p.Measure() &&
    (p.hadError ==> q.hadError) && (p.panicMode ==> q.panicMode) &&
    p.code <= q.code && p.lines <= q.lines && p.constants <= q.constants
  }

  /** errorAt (and error, errorAtCurrent): in panic mode nothing happens; otherwise both flags are set. */
  function ErrorAt(p: Parser): (q: Parser)
    ensures q.hadError == (p.hadError || !p.panicMode) && q.panicMode
    ensures q == p.(hadError := q.hadError, panicMode := true)
  {
    if p.panicMode then p else p.(panicMode := true, hadError := true)
  }

  /** The loop of advance: take tokens from the scanner, reporting each Error token, until one is not an error. */
  function AdvanceLoop(p: Parser): (q: Parser)
    requires p.Valid()
    ensures Grows(p, q) && q.code == p.code && q.lines == p.lines && q.constants == p.constants
    ensures q.previous == p.previous && q.current.kind != Error
    ensures q.Measure() <= |p.rest|
    ensures q.hadError == (p.hadError || (p.rest[0].kind == Error && !p.panicMode))
    ensures q.panicMode == (p.panicMode || p.rest[0].kind == Error)
    decreases |p.rest|
  {
    var t := p.rest[0];
    var next := p.(current := t, rest := Remaining(p.rest));
    if t.kind != Error then next else AdvanceLoop(ErrorAt(next))
  }

  /** advance: the current token becomes the previous one, and the next non-error token the current one. */
  function Advance(p: Parser): (q: Parser)
    requires p.Valid()
    ensures Grows(p, q) && q.code == p.code && q.lines == p.lines && q.constants == p.constants
    ensures q.previous == p.current && q.current.kind != Error
    ensures p.current.kind != EndOfFile ==> q.Measure() < p.Measure()
  {
    AdvanceLoop(p.(previous := p.current))
  }

  /** consume: advance past a token of the expected type, or report an error and stay. */
  function Consume(p: Parser, kind: TokenType): (q: Parser)
    requires p.Valid()
    ensures Grows(p, q) && q.code == p.code && q.lines == p.lines && q.constants == p.constants
    ensures p.current.kind == kind ==> q == Advance(p)
    ensures p.current.kind != kind ==> q == ErrorAt(p)
  {
    if p.current.kind == kind then Advance(p) else ErrorAt(p)
  }

  /** emitByte: one byte, on the line of the previous token. */
  function EmitByte(p: Parser, byte: CodeByte): (q: Parser)
    requires p.Valid()
    ensures Grows(p, q) && q.code == p.code + [byte] && q.lines == p.lines + [p.previous.line]
    ensures q == p.(code := q.code, lines := q.lines)
  {
    p.(code := p.code + [byte], lines := p.lines + [p.previous.line])
  }

  /** emitConstant: writeConstant of the value, every byte on the line of the previous token. */
  function EmitConstant(p: Parser, value: Values.Value): (q: Parser)
    requires p.Valid()
    ensures Grows(p, q) && q.constants == p.constants + [value]
    ensures q.code == p.code + EncodeIndexed(OpConstant, OpConstantLong, |p.constants|)
    ensures q.lines == p.lines + seq(|q.code| - |p.code|, _ => p.previous.line)
    ensures q == p.(code := q.code, lines := q.lines, constants := q.constants)
  {
    var bytes := EncodeIndexed(OpConstant, OpConstantLong, |p.constants|);
    p.(code := p.code + bytes, lines := p.lines + seq(|bytes|, _ => p.previous.line),
       constants := p.constants + [value])
  }

  /** The value of a run of decimal digits. */
  function DigitsValue(s: string): nat
  {
    if s == [] then 0
    else DigitsValue(s[..|s| - 1]) * 10 + (if '0' <= s[|s| - 1] <= '9' then (s[|s| - 1] - '0') as nat else 0)
  }

  function Power10(n: nat): (r: nat)
    ensures r >= 1
  {
    if n == 0 then 1 else 10 * Power10(n - 1)
  }

  /** The index of the first '.', or the length when there is none. */
  function DotIndex(s: string): (i: nat)
    ensures i <= |s| && (i < |s| ==> s[i] == '.') && forall k :: 0 <= k < i ==> s[k] != '.'
  {
    if s == [] then 0 else if s[0] == '.' then 0 else 1 + DotIndex(s[1..])
  }

  /** The exact decimal value of a number lexeme: the integer digits plus the fraction digits over a power of ten. */
  function NumberValue(lexeme: string): real
  {
    var i := DotIndex(lexeme);
    if i == |lexeme| then DigitsValue(lexeme) as real
    else DigitsValue(lexeme[..i]) as real + DigitsValue(lexeme[i + 1..]) as real / Power10(|lexeme| - i - 1) as real
  }

  /** parsePrecedence: a prefix rule for the token just taken, then infix rules while they bind at least as tightly as the minimum. */
  function ParsePrecedence(p: Parser, precedence: nat): (q: Parser)
    requires p.Valid() && precedence >= PrecAssignment
    ensures Grows(p, q)
    decreases p.Measure(), 1
  {
    var a := Advance(p);
    var rule := GetRule(a.previous.kind);
    if rule.prefix.None? then ErrorAt(a)
    else
      var b := Apply(a, rule.prefix.value);
      InfixLoop(b, precedence)
  }

  /** The while loop of parsePrecedence. */
  function InfixLoop(p: Parser, precedence: nat): (q: Parser)
    requires p.Valid() && precedence >= PrecAssignment
    ensures Grows(p, q)
    decreases p.Measure(), 1
  {
    if precedence <= GetRule(p.current.kind).precedence then
      var a := Advance(p);
      InfixRules(a.previous.kind);
      var b := Apply(a, GetRule(a.previous.kind).infix.value);
      InfixLoop(b, precedence)
    else p
  }

  /** Calling a parse function through the rules table. */
  function Apply(p: Parser, fn: ParseFn): (q: Parser)
    requires p.Valid()
    ensures Grows(p, q)
    decreases p.Measure(), 4
  {
    match fn
    case GroupingFn => Grouping(p)
    case UnaryFn => Unary(p)
    case BinaryFn => Binary(p)
    case NumberFn => NumberConstant(p)
  }

  /** expression: parsePrecedence at Assignment. */
  function Expression(p: Parser): (q: Parser)
    requires p.Valid()
    ensures Grows(p, q)
    decreases p.Measure(), 2
  {
    ParsePrecedence(p, PrecAssignment)
  }

  /** number: the constant the previous token's text denotes. */
  function NumberConstant(p: Parser): (q: Parser)
    requires p.Valid()
    ensures Grows(p, q)
    decreases p.Measure(), 3
  {
    EmitConstant(p, Values.Number(NumberValue(p.previous.lexeme)))
  }

  /** grouping: an expression, then the closing parenthesis. */
  function Grouping(p: Parser): (q: Parser)
    requires p.Valid()
    ensures Grows(p, q)
    decreases p.Measure(), 3
  {
    Consume(Expression(p), RightParen)
  }

  /** unary: the operand at Unary precedence, then Negate for '-'. */
  function Unary(p: Parser): (q: Parser)
    requires p.Valid()
    ensures Grows(p, q)
    decreases p.Measure(), 3
  {
    var operator := p.previous.kind;
    var a := ParsePrecedence(p, PrecUnary);
    if operator == Minus then EmitByte(a, OpNegate) else a
  }

  /** The opcode of an arithmetic operator token. */
  function OperatorCode(kind: TokenType): (r: Option<CodeByte>)
    ensures r.Some? <==> Arithmetic(kind)
  {
    match kind
    case Plus => Some(OpAdd)
    case Minus => Some(OpSubtract)
    case Star => Some(OpMultiply)
    case Slash => Some(OpDivide)
    case _ => None
  }

  /** binary: the right operand one precedence level above the operator's, then the operator's opcode. */
  function Binary(p: Parser): (q: Parser)
    requires p.Valid()
    ensures Grows(p, q)
    decreases p.Measure(), 3
  {
    var operator := p.previous.kind;
    var rule := GetRule(operator);
    var a := ParsePrecedence(p, rule.precedence + 1);
    if OperatorCode(operator).Some? then EmitByte(a, OperatorCode(operator).value) else a
  }

  /**
   * compile: reset both flags, take the first token, parse one expression,
   * require the end of the text, and emit Return; compile answers !hadError.
   * The previous and current tokens are whatever an earlier compile left.
   */
  function CompileTokens(previous: Token, current: Token, ts: seq<Token>,
                         code: seq<CodeByte>, lines: seq<nat>, constants: seq<Values.Value>): (q: Parser)
    requires Stream(ts) && |lines| == |code|
    ensures q.Valid()
    ensures |q.code| >= 1 && q.code[|q.code| - 1] == OpReturn
  {
    var p := Parser(previous, current, ts, false, false, code, lines, constants);
    var a := Advance(p);
    var b := Expression(a);
    var c := Consume(b, EndOfFile);
    EmitByte(c, OpReturn)
  }

  /** compile on a source text: the tokens come from a scanner started at the first character, on line 1. */
  function CompileText(previous: Token, current: Token, text: string,
                       code: seq<CodeByte>, lines: seq<nat>, constants: seq<Values.Value>): (q: Parser)
    requires CString(text) && |lines| == |code|
    ensures q.Valid() && |q.code| >= 1 && q.code[|q.code| - 1] == OpReturn
  {
    CompileTokens(previous, current, Tokens(text, 0, 1), code, lines, constants)
  }

  /**
   * Arithmetic expressions as the rules table reads them: number literals,
   * unary minus, the four binary operators and parentheses, each with the
   * tokens it is written with.
   */
  datatype Expr =
    | Num(literal: Token)
    | Neg(minus: Token, operand: Expr)
    | Bin(left: Expr, operator: Token, right: Expr)
    | Group(open: Token, inner: Expr, close: Token)

  /** The precedence an expression binds at: a binary one at its operator's, a negation at Unary. */
  function Prec(e: Expr): nat
  {
    match e
    case Num(_) => PrecPrimary
    case Neg(_, _) => PrecUnary
    case Bin(_, op, _) => GetRule(op.kind).precedence
    case Group(_, _, _) => PrecPrimary
  }

  /**
   * The trees the grammar can produce: operators are arithmetic, a left operand
   * binds at least as tightly as its operator (left associativity), a right
   * operand strictly more tightly, and the operand of '-' at Unary or above.
   */
  predicate WellFormed(e: Expr)
  {
    match e
    case Num(t) => t.kind == Number
    case Neg(m, x) => m.kind == Minus && WellFormed(x) && Prec(x) >= PrecUnary
    case Bin(l, op, r) =>
      Arithmetic(op.kind) && WellFormed(l) && WellFormed(r) &&
      Prec(l) >= GetRule(op.kind).precedence && Prec(r) > GetRule(op.kind).precedence
    case Group(o, x, c) => o.kind == LeftParen && c.kind == RightParen && WellFormed(x)
  }

  /** The tokens an expression is written with. */
  function Toks(e: Expr): (ts: seq<Token>)
    ensures |ts| >= 1
  {
    match e
    case Num(t) => [t]
    case Neg(m, x) => [m] + Toks(x)
    case Bin(l, op, r) => Toks(l) + [op] + Toks(r)
    case Group(o, x, c) => [o] + Toks(x) + [c]
  }

  function LastToken(e: Expr): Token
  {
    match e
    case Num(t) => t
    case Neg(_, x) => LastToken(x)
    case Bin(_, _, r) => LastToken(r)
    case Group(_, _, c) => c
  }

  /** The constants an expression adds to the pool, left to right. */
  function Consts(e: Expr): seq<Values.Value>
  {
    match e
    case Num(t) => [Values.Number(NumberValue(t.lexeme))]
    case Neg(_, x) => Consts(x)
    case Bin(l, _, r) => Consts(l) + Consts(r)
    case Group(_, x, _) => Consts(x)
  }

  /** The opcode bytes of an operator, none for a token that is not one. */
  function OperatorBytes(kind: TokenType): seq<CodeByte>
  {
    if OperatorCode(kind).Some? then [OperatorCode(kind).value] else []
  }

  /**
   * The postfix code of an expression whose first constant gets pool index
   * base: operands first, then the operator; negation after its operand;
   * parentheses leave nothing.
   */
  function Code(e: Expr, base: nat): seq<CodeByte>
  {
    match e
    case Num(_) => EncodeIndexed(OpConstant, OpConstantLong, base)
    case Neg(_, x) => Code(x, base) + [OpNegate]
    case Bin(l, op, r) => Code(l, base) + Code(r, base + |Consts(l)|) + OperatorBytes(op.kind)
    case Group(_, x, _) => Code(x, base)
  }

  /**
   * The line of each byte of that code: a constant's bytes carry the literal's
   * line, an operator's byte the line of the last token of its (right) operand,
   * because that is the previous token when it is emitted.
   */
  function Lines(e: Expr, base: nat): (ls: seq<nat>)
    ensures |ls| == |Code(e, base)|
  {
    match e
    case Num(t) => seq(|EncodeIndexed(OpConstant, OpConstantLong, base)|, _ => t.line)
    case Neg(_, x) => Lines(x, base) + [LastToken(x).line]
    case Bin(l, op, r) =>
      Lines(l, base) + Lines(r, base + |Consts(l)|) + seq(|OperatorBytes(op.kind)|, _ => LastToken(r).line)
    case Group(_, x, _) => Lines(x, base)
  }

  predicate NoErrors(ts: seq<Token>)
  {
    forall i :: 0 <= i < |ts| ==> ts[i].kind != Error
  }

  /** The state after an expression has been parsed and emitted, with tail still to come. */
  function After(p: Parser, e: Expr, tail: seq<Token>): (q: Parser)
    requires Stream(tail)
    ensures |p.lines| == |p.code| ==> q.Valid()
  {
    p.(previous := LastToken(e), current := tail[0], rest := Remaining(tail),
       code := p.code + Code(e, |p.constants|), lines := p.lines + Lines(e, |p.constants|),
       constants := p.constants + Consts(e))
  }

  /** The tokens of a well-formed expression are neither errors nor the end of the text. */
  lemma {:induction false} TokensOfTree(e: Expr)
    requires WellFormed(e)
    ensures NoErrors(Toks(e)) && Inner(Toks(e))
  {
    match e
    case Num(t) =>
      InnerOne(t);
    case Neg(m, x) =>
      TokensOfTree(x);
      InnerOne(m);
      InnerConcat([m], Toks(x));
    case Bin(l, op, r) =>
      TokensOfTree(l);
      TokensOfTree(r);
      InnerOne(op);
      InnerConcat(Toks(l), [op]);
      InnerConcat(Toks(l) + [op], Toks(r));
    case Group(o, x, c) =>
      TokensOfTree(x);
      InnerOne(o);
      InnerOne(c);
      InnerConcat([o], Toks(x));
      InnerConcat([o] + Toks(x), [c]);
  }

  /** Tokens that are neither errors nor the end of the text. */
  predicate Inner(ts: seq<Token>)
  {
    forall i :: 0 <= i < |ts| ==> ts[i].kind != Error && ts[i].kind != EndOfFile
  }

  lemma InnerOne(t: Token)
    requires t.kind != Error && t.kind != EndOfFile
    ensures Inner([t])
  {
  }

  lemma InnerConcat(a: seq<Token>, b: seq<Token>)
    requires Inner(a) && Inner(b)
    ensures Inner(a + b) && NoErrors(a + b)
  {
    forall i | 0 <= i < |a + b|
      ensures (a + b)[i].kind != Error && (a + b)[i].kind != EndOfFile
    {
      if i < |a| {
        assert (a + b)[i] == a[i];
      } else {
        assert (a + b)[i] == b[i - |a|];
      }
    }
  }

  /** advance over a token that is not an error: it becomes current, and the previous current becomes previous. */
  lemma AdvanceOver(p: Parser)
    requires p.Valid() && p.rest[0].kind != Error
    ensures Advance(p) == p.(previous := p.current, current := p.rest[0], rest := Remaining(p.rest))
  {
  }

  /**
   * The parsing theorem: starting on the first token of a well-formed
   * expression, parsePrecedence at a level the expression binds at parses
   * exactly that expression, emitting its postfix code, and goes on with the
   * infix loop at the token that follows, provided that token does not bind
   * more tightly than the expression.
   */
  lemma {:induction false} ParsesTree(p: Parser, e: Expr, tail: seq<Token>, prec: nat)
    requires WellFormed(e) && Stream(tail) && NoErrors(tail) && |p.lines| == |p.code|
    requires p.current == Toks(e)[0] && p.rest == Toks(e)[1..] + tail
    requires PrecAssignment <= prec <= Prec(e) && GetRule(tail[0].kind).precedence <= Prec(e)
    ensures p.Valid()
    ensures ParsePrecedence(p, prec) == InfixLoop(After(p, e, tail), prec)
    decreases e, 1
  {
    TokensSplit(e, tail);
    match e
    case Num(t) => ParsesNum(p, t, tail, prec);
    case Neg(m, x) => ParsesNeg(p, m, x, tail, prec);
    case Bin(l, op, r) => ParsesBin(p, l, op, r, tail, prec);
    case Group(o, x, c) => ParsesGroup(p, o, x, c, tail, prec);
  }

  /** Where the tokens of each kind of expression begin and how they go on. */
  lemma TokensSplit(e: Expr, tail: seq<Token>)
    ensures e.Neg? ==> Toks(e)[0] == e.minus && Toks(e)[1..] + tail == Toks(e.operand) + tail
    ensures e.Bin? ==> Toks(e)[0] == Toks(e.left)[0]
    ensures e.Bin? ==> Toks(e)[1..] + tail == Toks(e.left)[1..] + ([e.operator] + (Toks(e.right) + tail))
    ensures e.Group? ==> Toks(e)[0] == e.open && Toks(e)[1..] + tail == Toks(e.inner) + ([e.close] + tail)
  {
    match e
    case Num(_) =>
    case Neg(m, x) =>
      DropFirst([m], Toks(x));
    case Bin(l, op, r) =>
      var right := [op] + Toks(r);
      Assoc(Toks(l), [op], Toks(r));
      DropFirst(Toks(l), right);
      Assoc(Toks(l)[1..], right, tail);
      Assoc([op], Toks(r), tail);
    case Group(o, x, c) =>
      Assoc([o], Toks(x), [c]);
      DropFirst([o], Toks(x) + [c]);
      Assoc(Toks(x), [c], tail);
  }

  lemma DropFirst<T>(a: seq<T>, b: seq<T>)
    requires |a| >= 1
    ensures (a + b)[0] == a[0] && (a + b)[1..] == a[1..] + b
  {
  }

  /** parsePrecedence on a token with a prefix rule: advance, apply the rule, then the infix loop. */
  lemma PrefixStep(p: Parser, prec: nat)
    requires p.Valid() && p.rest[0].kind != Error && PrecAssignment <= prec
    requires GetRule(p.current.kind).prefix.Some?
    ensures var a := p.(previous := p.current, current := p.rest[0], rest := Remaining(p.rest));
      ParsePrecedence(p, prec) == InfixLoop(Apply(a, GetRule(p.current.kind).prefix.value), prec)
  {
    AdvanceOver(p);
  }

  lemma ParsesNum(p: Parser, t: Token, tail: seq<Token>, prec: nat)
    requires t.kind == Number && Stream(tail) && NoErrors(tail) && |p.lines| == |p.code|
    requires p.current == t && p.rest == tail && PrecAssignment <= prec
    ensures p.Valid() && ParsePrecedence(p, prec) == InfixLoop(After(p, Num(t), tail), prec)
  {
    var a := p.(previous := p.current, current := p.rest[0], rest := Remaining(p.rest));
    NumberPrefix(p, prec);
    NumberAfter(p, a, t, tail);
  }

  /** parsePrecedence on a number: advance over it, emit its constant, and go on with the infix loop. */
  lemma NumberPrefix(p: Parser, prec: nat)
    requires p.Valid() && p.current.kind == Number && p.rest[0].kind != Error && PrecAssignment <= prec
    ensures var a := p.(previous := p.current, current := p.rest[0], rest := Remaining(p.rest));
      ParsePrecedence(p, prec) == InfixLoop(NumberConstant(a), prec)
  {
    var a := p.(previous := p.current, current := p.rest[0], rest := Remaining(p.rest));
    NumberRule(p.current.kind);
    PrefixStep(p, prec);
    ApplyNumber(a);
  }

  lemma NumberRule(kind: TokenType)
    requires kind == Number
    ensures GetRule(kind).prefix == Some(NumberFn)
  {
  }

  lemma ApplyNumber(a: Parser)
    requires a.Valid()
    ensures Apply(a, NumberFn) == NumberConstant(a)
  {
  }

  /** The constant a number literal emits is the code, lines and constant of that literal. */
  lemma NumberAfter(p: Parser, a: Parser, t: Token, tail: seq<Token>)
    requires Stream(tail) && |p.lines| == |p.code| && a.Valid()
    requires SameOutput(a, p) && a.previous == t && a.current == tail[0] && a.rest == Remaining(tail)
    ensures NumberConstant(a) == After(p, Num(t), tail)
  {
    var base := |p.constants|;
    assert Lines(Num(t), base) == seq(|EncodeIndexed(OpConstant, OpConstantLong, base)|, _ => t.line);
  }

  /** The infix loop on an operator that binds at least at the minimum: advance, then binary. */
  lemma InfixStep(p: Parser, prec: nat)
    requires p.Valid() && p.rest[0].kind != Error && PrecAssignment <= prec <= GetRule(p.current.kind).precedence
    ensures var a := p.(previous := p.current, current := p.rest[0], rest := Remaining(p.rest));
      InfixLoop(p, prec) == InfixLoop(Binary(a), prec)
  {
    AdvanceOver(p);
    InfixRules(p.current.kind);
  }

  /** The infix loop stops at a token that binds less tightly than the minimum. */
  lemma InfixStop(p: Parser, prec: nat)
    requires p.Valid() && PrecAssignment <= prec && GetRule(p.current.kind).precedence < prec
    ensures InfixLoop(p, prec) == p
  {
  }

  /** unary on '-': the operand at Unary precedence, then Negate. */
  lemma UnaryStep(a: Parser)
    requires a.Valid() && a.previous.kind == Minus
    ensures Apply(a, UnaryFn) == EmitByte(ParsePrecedence(a, PrecUnary), OpNegate)
  {
  }

  lemma GroupingStep(a: Parser)
    requires a.Valid()
    ensures Apply(a, GroupingFn) == Consume(ParsePrecedence(a, PrecAssignment), RightParen)
  {
    assert Apply(a, GroupingFn) == Grouping(a);
    assert Expression(a) == ParsePrecedence(a, PrecAssignment);
  }

  lemma Assoc<T>(a: seq<T>, b: seq<T>, c: seq<T>)
    ensures a + b + c == a + (b + c)
  {
  }

  lemma Assoc3<T>(a: seq<T>, b: seq<T>, c: seq<T>, d: seq<T>)
    ensures a + b + c + d == a + (b + c + d)
  {
  }

  lemma {:induction false} ParsesNeg(p: Parser, m: Token, x: Expr, tail: seq<Token>, prec: nat)
    requires WellFormed(Neg(m, x)) && Stream(tail) && NoErrors(tail) && |p.lines| == |p.code|
    requires p.current == m && p.rest == Toks(x) + tail && PrecAssignment <= prec
    ensures p.Valid() && ParsePrecedence(p, prec) == InfixLoop(After(p, Neg(m, x), tail), prec)
    decreases Neg(m, x), 0
  {
    StreamAfterTree(x, tail);
    var a := p.(previous := m, current := Toks(x)[0], rest := Toks(x)[1..] + tail);
    NegPrefix(p, a, prec);
    InfixRules(tail[0].kind);
    ParsesOperand(a, x, tail, PrecUnary);
    AfterNeg(p, a, m, x, tail);
  }

  /** parsePrecedence on '-': advance over it, then unary parses an operand at Unary and emits Negate. */
  lemma NegPrefix(p: Parser, a: Parser, prec: nat)
    requires p.Valid() && a.Valid() && p.current.kind == Minus && PrecAssignment <= prec
    requires |p.rest| >= 2 && p.rest[0].kind != Error
    requires a == p.(previous := p.current, current := p.rest[0], rest := p.rest[1..])
    ensures ParsePrecedence(p, prec) == InfixLoop(EmitByte(ParsePrecedence(a, PrecUnary), OpNegate), prec)
  {
    PrefixStep(p, prec);
    UnaryStep(a);
  }

  /**
   * An operand parsed at a level it binds at, followed by a token that binds
   * less tightly than that level: exactly the operand is parsed and emitted.
   */
  lemma ParsesOperand(a: Parser, x: Expr, tail: seq<Token>, prec: nat)
    requires WellFormed(x) && Stream(tail) && NoErrors(tail) && a.Valid()
    requires a.current == Toks(x)[0] && a.rest == Toks(x)[1..] + tail
    requires PrecAssignment <= prec <= Prec(x) && GetRule(tail[0].kind).precedence < prec
    ensures ParsePrecedence(a, prec) == After(a, x, tail)
    decreases x, 2
  {
    ParsesTree(a, x, tail, prec);
    InfixStop(After(a, x, tail), prec);
  }

  lemma AfterNeg(p: Parser, a: Parser, m: Token, x: Expr, tail: seq<Token>)
    requires Stream(tail) && |p.lines| == |p.code|
    requires a == p.(previous := m, current := Toks(x)[0], rest := Toks(x)[1..] + tail)
    ensures After(a, x, tail).Valid() && EmitByte(After(a, x, tail), OpNegate) == After(p, Neg(m, x), tail)
  {
    var base := |p.constants|;
    Assoc(p.code, Code(x, base), [OpNegate]);
    Assoc(p.lines, Lines(x, base), [LastToken(x).line]);
  }

  lemma {:induction false} ParsesBin(p: Parser, l: Expr, op: Token, r: Expr, tail: seq<Token>, prec: nat)
    requires WellFormed(Bin(l, op, r)) && Stream(tail) && NoErrors(tail) && |p.lines| == |p.code|
    requires p.current == Toks(l)[0] && p.rest == Toks(l)[1..] + ([op] + (Toks(r) + tail))
    requires PrecAssignment <= prec <= Prec(Bin(l, op, r))
    requires GetRule(tail[0].kind).precedence <= Prec(Bin(l, op, r))
    ensures p.Valid()
    ensures ParsePrecedence(p, prec) == InfixLoop(After(p, Bin(l, op, r), tail), prec)
    decreases Bin(l, op, r), 0
  {
    BinWellFormed(l, op, r);
    var ot := [op] + (Toks(r) + tail);
    BinTokens(op, r, tail);
    StreamAfterTree(l, ot);
    var pl := After(p, l, ot);
    var a := pl.(previous := ot[0], current := ot[1], rest := ot[2..]);
    BinLeft(p, l, ot, prec, pl, a);
    BinRight(a, op, r, tail, ot);
    BinAfter(p, l, op, r, tail, ot, pl, a);
  }

  /** The parts of a well-formed binary expression are well formed and bind as the operator demands. */
  lemma BinWellFormed(l: Expr, op: Token, r: Expr)
    requires WellFormed(Bin(l, op, r))
    ensures WellFormed(l) && WellFormed(r) && Arithmetic(op.kind)
    ensures Prec(l) >= GetRule(op.kind).precedence && Prec(r) > GetRule(op.kind).precedence
    ensures Prec(Bin(l, op, r)) == GetRule(op.kind).precedence
  {
  }

  /** The tokens from a binary operator on: a stream without errors whose second token starts the right operand. */
  lemma BinTokens(op: Token, r: Expr, tail: seq<Token>)
    requires WellFormed(r) && Stream(tail) && NoErrors(tail) && Arithmetic(op.kind)
    ensures Stream([op] + (Toks(r) + tail)) && NoErrors([op] + (Toks(r) + tail)) && |[op] + (Toks(r) + tail)| >= 3
    ensures ([op] + (Toks(r) + tail))[0] == op && ([op] + (Toks(r) + tail))[1] == Toks(r)[0]
    ensures ([op] + (Toks(r) + tail))[2..] == Toks(r)[1..] + tail && Stream(Toks(r)[1..] + tail)
  {
    StreamAfterTree(r, tail);
    var rt := Toks(r) + tail;
    assert rt[0] == Toks(r)[0];
    OperatorThen(op, rt);
  }

  /** A token without error in front of a stream without errors, and the stream two tokens on. */
  lemma OperatorThen(op: Token, rt: seq<Token>)
    requires Stream(rt) && NoErrors(rt) && |rt| >= 2 && op.kind != Error
    ensures var ot := [op] + rt;
      Stream(ot) && NoErrors(ot) && |ot| >= 3 && ot[0] == op && ot[1] == rt[0] && ot[2..] == rt[1..]
  {
    OperatorStream(op, rt);
    var ot := [op] + rt;
    assert ot[1..] == rt;
  }

  /**
   * binary's caller: the left operand is parsed and emitted, and the infix
   * loop takes the operator that follows it, handing over to binary with the
   * tokens after the operator still to come.
   */
  lemma BinLeft(p: Parser, l: Expr, ot: seq<Token>, prec: nat, pl: Parser, a: Parser)
    requires WellFormed(l) && Stream(ot) && NoErrors(ot) && |ot| >= 3 && p.Valid()
    requires p.current == Toks(l)[0] && p.rest == Toks(l)[1..] + ot
    requires PrecAssignment <= prec <= GetRule(ot[0].kind).precedence <= Prec(l)
    requires pl == After(p, l, ot)
    requires a == pl.(previous := ot[0], current := ot[1], rest := ot[2..]) && a.Valid()
    ensures ParsePrecedence(p, prec) == InfixLoop(Binary(a), prec)
    decreases l, 2
  {
    ParsesTree(p, l, ot, prec);
    assert pl.current == ot[0] && pl.rest == ot[1..];
    OperatorStep(pl, a, prec);
  }

  /** The infix loop on an operator that binds at least at the minimum hands over to binary. */
  lemma OperatorStep(p: Parser, a: Parser, prec: nat)
    requires p.Valid() && a.Valid() && PrecAssignment <= prec <= GetRule(p.current.kind).precedence
    requires |p.rest| >= 2 && p.rest[0].kind != Error
    requires a == p.(previous := p.current, current := p.rest[0], rest := p.rest[1..])
    ensures InfixLoop(p, prec) == InfixLoop(Binary(a), prec)
  {
    InfixStep(p, prec);
  }

  /** binary after the operator token: the right operand is parsed and emitted, then the operator's opcode. */
  lemma BinRight(a: Parser, op: Token, r: Expr, tail: seq<Token>, ot: seq<Token>)
    requires WellFormed(r) && Stream(tail) && NoErrors(tail) && a.Valid()
    requires Arithmetic(op.kind) && Prec(r) > GetRule(op.kind).precedence
    requires GetRule(tail[0].kind).precedence <= GetRule(op.kind).precedence
    requires |ot| >= 3 && ot[0] == op && ot[1] == Toks(r)[0] && ot[2..] == Toks(r)[1..] + tail
    requires a.previous == ot[0] && a.current == ot[1] && a.rest == ot[2..]
    ensures Binary(a) == EmitByte(After(a, r, tail), OperatorCode(op.kind).value)
    decreases r, 3
  {
    var n := GetRule(op.kind).precedence + 1;
    var q := After(a, r, tail);
    ParsesOperand(a, r, tail, n);
    BinaryOperand(a, op.kind, n, q);
  }

  /** parsePrecedence, once the token has been taken to a: without a prefix rule an error is reported. */
  lemma PrefixMissingResult(p: Parser, prec: nat, a: Parser, r: Parser)
    requires p.Valid() && PrecAssignment <= prec && a == Advance(p) && GetRule(a.previous.kind).prefix.None?
    requires r == ErrorAt(a)
    ensures ParsePrecedence(p, prec) == r
  {
  }

  /** parsePrecedence, once the prefix rule has taken a to b: the infix loop continues from b. */
  lemma PrefixResult(p: Parser, prec: nat, a: Parser, fn: ParseFn, b: Parser)
    requires p.Valid() && PrecAssignment <= prec && a == Advance(p) && GetRule(a.previous.kind).prefix == Some(fn)
    requires b == Apply(a, fn)
    ensures ParsePrecedence(p, prec) == InfixLoop(b, prec) && a.Measure() < p.Measure()
  {
    PrefixTaken(p, a);
  }

  /** A token with a prefix rule is not the end of the text, so taking it shortens what is left. */
  lemma PrefixTaken(p: Parser, a: Parser)
    requires p.Valid() && a == Advance(p) && GetRule(a.previous.kind).prefix.Some?
    ensures a.Measure() < p.Measure()
  {
    InfixRules(p.current.kind);
    assert p.current.kind != EndOfFile;
  }

  /** One turn of the infix loop from s, once the operator has been taken to a and its rule has taken a to b. */
  lemma InfixResult(s: Parser, prec: nat, a: Parser, fn: ParseFn, b: Parser)
    requires s.Valid() && PrecAssignment <= prec <= GetRule(s.current.kind).precedence && a == Advance(s)
    requires GetRule(a.previous.kind).infix == Some(fn) && b == Apply(a, fn)
    ensures InfixLoop(s, prec) == InfixLoop(b, prec) && a.Measure() < s.Measure()
  {
    InfixRules(s.current.kind);
  }

  /** binary, once the right operand has been parsed to q: the operator's opcode follows, if there is one. */
  lemma BinaryResult(a: Parser, n: nat, q: Parser, opcode: Option<CodeByte>, r: Parser)
    requires a.Valid() && q.Valid() && n == GetRule(a.previous.kind).precedence + 1 && ParsePrecedence(a, n) == q
    requires opcode == OperatorCode(a.previous.kind)
    requires r == if opcode.Some? then EmitByte(q, opcode.value) else q
    ensures Binary(a) == r
  {
  }

  /** binary, once the right operand has been parsed to q: the operator's opcode follows. */
  lemma BinaryOperand(a: Parser, op: TokenType, n: nat, q: Parser)
    requires a.Valid() && Arithmetic(op) && op == a.previous.kind && n == GetRule(op).precedence + 1
    requires ParsePrecedence(a, n) == q
    ensures Binary(a) == EmitByte(q, OperatorCode(op).value)
  {
  }

  /** The code and lines of a binary expression, with its one operator byte. */
  /** The state binary leaves, written from the state after the left operand. */
  lemma BinAfter(p: Parser, l: Expr, op: Token, r: Expr, tail: seq<Token>, ot: seq<Token>, pl: Parser, a: Parser)
    requires Stream(tail) && |p.lines| == |p.code| && Arithmetic(op.kind) && Stream(ot) && |ot| >= 3
    requires pl == After(p, l, ot) && a == pl.(previous := ot[0], current := ot[1], rest := ot[2..])
    ensures EmitByte(After(a, r, tail), OperatorCode(op.kind).value) == After(p, Bin(l, op, r), tail)
  {
    assert a.code == p.code + Code(l, |p.constants|) && a.lines == p.lines + Lines(l, |p.constants|);
    assert a.constants == p.constants + Consts(l) && a.hadError == p.hadError && a.panicMode == p.panicMode;
    AfterBin(p, a, l, op, r, tail);
  }

  lemma AfterBin(p: Parser, a: Parser, l: Expr, op: Token, r: Expr, tail: seq<Token>)
    requires Stream(tail) && |p.lines| == |p.code| && Arithmetic(op.kind)
    requires a.code == p.code + Code(l, |p.constants|) && a.lines == p.lines + Lines(l, |p.constants|)
    requires a.constants == p.constants + Consts(l) && a.hadError == p.hadError && a.panicMode == p.panicMode
    ensures EmitByte(After(a, r, tail), OperatorCode(op.kind).value) == After(p, Bin(l, op, r), tail)
  {
    BinOutput(p.code, p.lines, p.constants, l, op, r, a.code, a.lines, a.constants);
  }

  /** The chunk after the left operand, extended by the right operand's code and the operator's opcode, is the chunk of the whole. */
  lemma BinOutput(code: seq<CodeByte>, lines: seq<nat>, constants: seq<Values.Value>, l: Expr, op: Token, r: Expr,
                  leftCode: seq<CodeByte>, leftLines: seq<nat>, leftConstants: seq<Values.Value>)
    requires Arithmetic(op.kind)
    requires leftCode == code + Code(l, |constants|) && leftLines == lines + Lines(l, |constants|)
    requires leftConstants == constants + Consts(l)
    ensures leftCode + Code(r, |leftConstants|) + [OperatorCode(op.kind).value] == code + Code(Bin(l, op, r), |constants|)
    ensures leftLines + Lines(r, |leftConstants|) + [LastToken(r).line] == lines + Lines(Bin(l, op, r), |constants|)
    ensures leftConstants + Consts(r) == constants + Consts(Bin(l, op, r))
  {
    assert |leftConstants| == |constants| + |Consts(l)|;
    BinCode(code, |constants|, l, op, r, leftCode, |leftConstants|);
    BinLines(lines, |constants|, l, op, r, leftLines, |leftConstants|);
    Assoc(constants, Consts(l), Consts(r));
  }

  lemma BinCode(code: seq<CodeByte>, base: nat, l: Expr, op: Token, r: Expr, leftCode: seq<CodeByte>, n: nat)
    requires Arithmetic(op.kind) && leftCode == code + Code(l, base) && n == base + |Consts(l)|
    ensures leftCode + Code(r, n) + [OperatorCode(op.kind).value] == code + Code(Bin(l, op, r), base)
  {
    assert OperatorBytes(op.kind) == [OperatorCode(op.kind).value];
    assert Code(Bin(l, op, r), base) == Code(l, base) + Code(r, n) + [OperatorCode(op.kind).value];
    Assoc3(code, Code(l, base), Code(r, n), [OperatorCode(op.kind).value]);
  }

  lemma BinLines(lines: seq<nat>, base: nat, l: Expr, op: Token, r: Expr, leftLines: seq<nat>, n: nat)
    requires Arithmetic(op.kind) && leftLines == lines + Lines(l, base) && n == base + |Consts(l)|
    ensures leftLines + Lines(r, n) + [LastToken(r).line] == lines + Lines(Bin(l, op, r), base)
  {
    assert |OperatorBytes(op.kind)| == 1;
    assert seq(1, _ => LastToken(r).line) == [LastToken(r).line];
    assert Lines(Bin(l, op, r), base) == Lines(l, base) + Lines(r, n) + [LastToken(r).line];
    Assoc3(lines, Lines(l, base), Lines(r, n), [LastToken(r).line]);
  }

  lemma {:induction false} ParsesGroup(p: Parser, o: Token, x: Expr, c: Token, tail: seq<Token>, prec: nat)
    requires WellFormed(Group(o, x, c)) && Stream(tail) && NoErrors(tail) && |p.lines| == |p.code|
    requires p.current == o && p.rest == Toks(x) + ([c] + tail) && PrecAssignment <= prec
    ensures p.Valid() && ParsePrecedence(p, prec) == InfixLoop(After(p, Group(o, x, c), tail), prec)
    decreases Group(o, x, c), 0
  {
    var a := p.(previous := p.current, current := p.rest[0], rest := p.rest[1..]);
    GroupReady(p, a, o, x, c, tail, prec);
    ParsesOperand(a, x, [c] + tail, PrecAssignment);
    GroupDone(p, a, o, x, c, tail, prec);
  }

  /** After '(' is taken, the inner expression's tokens are where ParsesOperand needs them. */
  lemma GroupReady(p: Parser, a: Parser, o: Token, x: Expr, c: Token, tail: seq<Token>, prec: nat)
    requires WellFormed(Group(o, x, c)) && Stream(tail) && NoErrors(tail) && |p.lines| == |p.code|
    requires p.current == o && p.rest == Toks(x) + ([c] + tail) && PrecAssignment <= prec
    requires a == p.(previous := p.current, current := p.rest[0], rest := p.rest[1..])
    ensures p.Valid() && a.Valid() && p.current.kind == LeftParen && c.kind == RightParen
    ensures |p.rest| >= 2 && p.rest[0].kind != Error && SameOutput(a, p)
    ensures WellFormed(x) && Stream([c] + tail) && NoErrors([c] + tail)
    ensures a.current == Toks(x)[0] && a.rest == Toks(x)[1..] + ([c] + tail)
    ensures PrecAssignment <= PrecAssignment <= Prec(x) && GetRule(([c] + tail)[0].kind).precedence < PrecAssignment
  {
    GroupTokens(o, x, c, tail);
  }

  /** Once the inner expression is parsed, ')' is consumed and the infix loop goes on after the group. */
  lemma GroupDone(p: Parser, a: Parser, o: Token, x: Expr, c: Token, tail: seq<Token>, prec: nat)
    requires Stream(tail) && NoErrors(tail) && PrecAssignment <= prec
    requires p.Valid() && a.Valid() && p.current.kind == LeftParen && c.kind == RightParen
    requires |p.rest| >= 2 && p.rest[0].kind != Error && SameOutput(a, p)
    requires a == p.(previous := p.current, current := p.rest[0], rest := p.rest[1..])
    requires ParsePrecedence(a, PrecAssignment) == After(a, x, [c] + tail)
    ensures ParsePrecedence(p, prec) == InfixLoop(After(p, Group(o, x, c), tail), prec)
  {
    GroupPrefix(p, a, prec);
    AfterGroup(p, a, o, x, c, tail);
  }

  /**
   * The tokens of a parenthesised expression after '(': a stream without
   * errors that starts the inner expression, and ')' binds less tightly than
   * any expression.
   */
  lemma GroupTokens(o: Token, x: Expr, c: Token, tail: seq<Token>)
    requires WellFormed(Group(o, x, c)) && Stream(tail) && NoErrors(tail)
    ensures WellFormed(x) && o.kind == LeftParen && c.kind == RightParen && PrecAssignment <= Prec(x)
    ensures Stream([c] + tail) && NoErrors([c] + tail)
    ensures GetRule(([c] + tail)[0].kind).precedence < PrecAssignment
    ensures Stream(Toks(x) + ([c] + tail)) && |Toks(x) + ([c] + tail)| >= 2
    ensures (Toks(x) + ([c] + tail))[0] == Toks(x)[0] && Toks(x)[0].kind != Error
    ensures (Toks(x) + ([c] + tail))[1..] == Toks(x)[1..] + ([c] + tail) && Stream(Toks(x)[1..] + ([c] + tail))
  {
    GroupParts(o, x, c);
    CloseTokens(c, tail);
    OperandTokens(x, [c] + tail);
  }

  lemma GroupParts(o: Token, x: Expr, c: Token)
    requires WellFormed(Group(o, x, c))
    ensures WellFormed(x) && o.kind == LeftParen && c.kind == RightParen
  {
  }

  /** ')' in front of a stream without errors: a stream without errors that binds less tightly than any expression. */
  lemma CloseTokens(c: Token, tail: seq<Token>)
    requires c.kind == RightParen && Stream(tail) && NoErrors(tail)
    ensures Stream([c] + tail) && NoErrors([c] + tail)
    ensures GetRule(([c] + tail)[0].kind).precedence < PrecAssignment
  {
    OperatorStream(c, tail);
    assert ([c] + tail)[0] == c;
  }

  /** The tokens of an expression in front of a stream without errors: a stream whose first token is the expression's. */
  lemma OperandTokens(x: Expr, ct: seq<Token>)
    requires WellFormed(x) && Stream(ct) && NoErrors(ct)
    ensures PrecAssignment <= Prec(x)
    ensures Stream(Toks(x) + ct) && |Toks(x) + ct| >= 2
    ensures (Toks(x) + ct)[0] == Toks(x)[0] && Toks(x)[0].kind != Error
    ensures (Toks(x) + ct)[1..] == Toks(x)[1..] + ct && Stream(Toks(x)[1..] + ct)
  {
    StreamAfterTree(x, ct);
    TokensOfTree(x);
    PrecOfTree(x);
  }

  /** parsePrecedence on '(': advance over it, then grouping parses an expression and consumes ')'. */
  lemma GroupPrefix(p: Parser, a: Parser, prec: nat)
    requires p.Valid() && a.Valid() && p.current.kind == LeftParen && PrecAssignment <= prec
    requires |p.rest| >= 2 && p.rest[0].kind != Error
    requires a == p.(previous := p.current, current := p.rest[0], rest := p.rest[1..])
    ensures ParsePrecedence(p, prec) == InfixLoop(Consume(ParsePrecedence(a, PrecAssignment), RightParen), prec)
  {
    PrefixStep(p, prec);
    GroupingStep(a);
  }

  /** An operator token in front of a stream without errors. */
  lemma OperatorStream(op: Token, rt: seq<Token>)
    requires Stream(rt) && NoErrors(rt) && op.kind != Error
    ensures Stream([op] + rt) && NoErrors([op] + rt)
  {
    NoErrorsConcat([op], rt);
  }

  /** Taking the operator token off leaves the stream behind it. */
  lemma DropOperator(op: Token, rt: seq<Token>)
    requires Stream(rt)
    ensures ([op] + rt)[0] == op && Remaining([op] + rt) == rt
  {
    assert ([op] + rt)[1..] == rt;
  }

  /** A well-formed expression binds at Term or more tightly. */
  lemma PrecOfTree(e: Expr)
    requires WellFormed(e)
    ensures PrecTerm <= Prec(e) <= PrecPrimary
  {
    if e.Bin? {
      InfixRules(e.operator.kind);
    }
  }

  lemma AfterGroup(p: Parser, a: Parser, o: Token, x: Expr, c: Token, tail: seq<Token>)
    requires Stream(tail) && NoErrors(tail) && |p.lines| == |p.code| && c.kind == RightParen
    requires SameOutput(a, p)
    ensures Consume(After(a, x, [c] + tail), RightParen) == After(p, Group(o, x, c), tail)
  {
    var ax := After(a, x, [c] + tail);
    assert ax.current == c && ax.rest == tail;
    AdvanceOver(ax);
  }

  /** The tokens of a well-formed expression followed by a stream are a stream with no errors. */
  lemma StreamAfterTree(e: Expr, tail: seq<Token>)
    requires WellFormed(e) && Stream(tail) && NoErrors(tail)
    ensures Stream(Toks(e) + tail) && NoErrors(Toks(e) + tail)
    ensures Toks(e)[1..] + tail == (Toks(e) + tail)[1..] && Stream(Toks(e)[1..] + tail)
  {
    TokensOfTree(e);
    NoErrorsConcat(Toks(e), tail);
  }

  /** Tokens without errors in front of a stream without errors. */
  lemma NoErrorsConcat(ts: seq<Token>, tail: seq<Token>)
    requires |ts| >= 1 && NoErrors(ts) && Stream(tail) && NoErrors(tail)
    ensures Stream(ts + tail) && NoErrors(ts + tail)
    ensures ts[1..] + tail == (ts + tail)[1..] && Stream(ts[1..] + tail)
  {
    var all := ts + tail;
    assert all[|all| - 1] == tail[|tail| - 1];
    forall i | 0 <= i < |all|
      ensures all[i].kind != Error
    {
      if i < |ts| {
        assert all[i] == ts[i];
      } else {
        assert all[i] == tail[i - |ts|];
      }
    }
    assert ts[1..] + tail == all[1..];
  }

  /**
   * The compile theorem: the tokens of a well-formed arithmetic expression
   * followed by EndOfFile compile without error to the expression's postfix
   * code and a Return, appended to what the chunk held, with the expression's
   * constants appended to the pool and each byte on the line it came from.
   */
  lemma CompilesTree(previous: Token, current: Token, e: Expr, eof: Token,
                     code: seq<CodeByte>, lines: seq<nat>, constants: seq<Values.Value>)
    requires WellFormed(e) && eof.kind == EndOfFile && |lines| == |code|
    ensures var q := CompileTokens(previous, current, Toks(e) + [eof], code, lines, constants);
      !q.hadError && q.constants == constants + Consts(e) &&
      q.code == code + Code(e, |constants|) + [OpReturn] &&
      q.lines == lines + Lines(e, |constants|) + [eof.line]
  {
    var p := Parser(previous, current, Toks(e) + [eof], false, false, code, lines, constants);
    CompilesParser(p, e, eof);
  }

  lemma CompilesParser(p: Parser, e: Expr, eof: Token)
    requires WellFormed(e) && eof.kind == EndOfFile && p.Valid() && !p.hadError && !p.panicMode
    requires p.rest == Toks(e) + [eof]
    ensures var q := CompileTokens(p.previous, p.current, p.rest, p.code, p.lines, p.constants);
      !q.hadError && q.constants == p.constants + Consts(e) &&
      q.code == p.code + Code(e, |p.constants|) + [OpReturn] &&
      q.lines == p.lines + Lines(e, |p.constants|) + [eof.line]
  {
    EndTokens(eof);
    OperandTokens(e, [eof]);
    var a := p.(previous := p.current, current := p.rest[0], rest := p.rest[1..]);
    ParsedExpression(a, e, eof);
    CompileSteps(p, After(a, e, [eof]));
    CompiledOutput(p, a, e, eof);
  }

  /** expression, on the tokens of a well-formed tree followed by the end of the text, stops at the end. */
  lemma ParsedExpression(a: Parser, e: Expr, eof: Token)
    requires WellFormed(e) && eof.kind == EndOfFile && a.Valid()
    requires a.current == Toks(e)[0] && a.rest == Toks(e)[1..] + [eof]
    ensures Expression(a) == After(a, e, [eof])
    ensures After(a, e, [eof]).Valid() && After(a, e, [eof]).current.kind == EndOfFile
    ensures After(a, e, [eof]).rest == [After(a, e, [eof]).current]
  {
    EndTokens(eof);
    PrecOfTree(e);
    ParsesOperand(a, e, [eof], PrecAssignment);
    ExpressionIs(a);
    AfterEnd(a, e, eof);
  }

  /** The end of the text alone: a stream without errors, and it binds less tightly than any expression. */
  lemma EndTokens(eof: Token)
    requires eof.kind == EndOfFile
    ensures Stream([eof]) && NoErrors([eof]) && GetRule([eof][0].kind).precedence < PrecAssignment
  {
  }

  lemma AfterEnd(a: Parser, e: Expr, eof: Token)
    requires eof.kind == EndOfFile && a.Valid()
    ensures After(a, e, [eof]).current == eof && After(a, e, [eof]).rest == [eof] && After(a, e, [eof]).Valid()
  {
  }

  /** What compile leaves once the expression's code is followed by Return on the line of the end of the text. */
  lemma CompiledOutput(p: Parser, a: Parser, e: Expr, eof: Token)
    requires eof.kind == EndOfFile && a.Valid() && SameOutput(a, p) && !p.hadError
    ensures var b := After(a, e, [eof]);
      var q := EmitByte(b.(previous := b.current), OpReturn);
      !q.hadError && q.constants == p.constants + Consts(e) &&
      q.code == p.code + Code(e, |p.constants|) + [OpReturn] &&
      q.lines == p.lines + Lines(e, |p.constants|) + [eof.line]
  {
  }

  /** compile, once the expression has been parsed to b with EndOfFile current: consume it and emit Return. */
  lemma CompileSteps(p: Parser, b: Parser)
    requires p.Valid() && !p.hadError && !p.panicMode && |p.rest| >= 2 && p.rest[0].kind != Error
    requires Expression(p.(previous := p.current, current := p.rest[0], rest := p.rest[1..])) == b
    requires b.Valid() && b.current.kind == EndOfFile && b.rest == [b.current]
    ensures CompileTokens(p.previous, p.current, p.rest, p.code, p.lines, p.constants) ==
            EmitByte(b.(previous := b.current), OpReturn)
  {
    AdvanceOver(p);
    AdvanceOver(b);
  }

  /** "1 + 2 * 3": the product binds first, so Multiply comes before Add. */
  lemma CompilesSumOfProduct(previous: Token, current: Token)
    ensures var ts := [Token(Number, "1", 1), Token(Plus, "+", 1), Token(Number, "2", 1),
                       Token(Star, "*", 1), Token(Number, "3", 1), Token(EndOfFile, "", 1)];
      var q := CompileTokens(previous, current, ts, [], [], []);
      !q.hadError &&
      q.code == [OpConstant, 0, OpConstant, 1, OpConstant, 2, OpMultiply, OpAdd, OpReturn] &&
      q.constants == [Values.Number(1.0), Values.Number(2.0), Values.Number(3.0)]
  {
    var t1, t2, t3 := Token(Number, "1", 1), Token(Number, "2", 1), Token(Number, "3", 1);
    var plus, star, eof := Token(Plus, "+", 1), Token(Star, "*", 1), Token(EndOfFile, "", 1);
    var product := Bin(Num(t2), star, Num(t3));
    var e := Bin(Num(t1), plus, product);
    assert WellFormed(e);
    assert Toks(e) + [eof] == [t1, plus, t2, star, t3, eof];
    CompilesTree(previous, current, e, eof, [], [], []);
    assert NumberValue("1") == 1.0 && NumberValue("2") == 2.0 && NumberValue("3") == 3.0;
    assert Code(product, 1) == [OpConstant, 1, OpConstant, 2, OpMultiply];
    assert Code(e, 0) == [OpConstant, 0, OpConstant, 1, OpConstant, 2, OpMultiply, OpAdd];
  }

  /** A number followed by '+' and the end of the text: the operand of '+' is missing, so compile reports an error. */
  lemma MissingOperandIsAnError(previous: Token, current: Token, n: Token, plus: Token, eof: Token)
    requires n.kind == Number && plus.kind == Plus && eof.kind == EndOfFile
    ensures CompileTokens(previous, current, [n, plus, eof], [], [], []).hadError
  {
    var p := Parser(previous, current, [n, plus, eof], false, false, [], [], []);
    AdvanceOver(p);
    var a := p.(previous := p.current, current := p.rest[0], rest := Remaining(p.rest));
    assert a.current.kind == Number && a.rest == [plus, eof];
    OperandMissing(a);
    ErrorSticks(Expression(a), PrecAssignment);
  }

  /**
   * Nothing clears panic mode or hadError: once an error is reported,
   * parsePrecedence, its infix loop, consuming the end and emitting Return all
   * keep it reported, and in panic mode every later report is suppressed.
   */
  lemma ErrorSticks(b: Parser, precedence: nat)
    requires b.Valid() && precedence >= PrecAssignment
    ensures b.hadError ==> ParsePrecedence(b, precedence).hadError && InfixLoop(b, precedence).hadError
    ensures b.panicMode ==> ParsePrecedence(b, precedence).panicMode && InfixLoop(b, precedence).panicMode
    ensures b.hadError ==> EmitByte(Consume(b, EndOfFile), OpReturn).hadError
    ensures b.panicMode ==> ErrorAt(b) == b
  {
  }

  /** An error reported while compile parses its expression is in compile's result. */
  lemma CompileKeepsErrors(previous: Token, current: Token, ts: seq<Token>,
                           code: seq<CodeByte>, lines: seq<nat>, constants: seq<Values.Value>)
    requires Stream(ts) && |lines| == |code|
    ensures var a := Advance(Parser(previous, current, ts, false, false, code, lines, constants));
      Expression(a).hadError ==> CompileTokens(previous, current, ts, code, lines, constants).hadError
  {
  }

  /** An expression that is a number followed by '+' and the end of the text is an error. */
  lemma OperandMissing(a: Parser)
    requires a.Valid() && !a.panicMode && a.current.kind == Number
    requires |a.rest| == 2 && a.rest[0].kind == Plus && a.rest[1].kind == EndOfFile
    ensures Expression(a).hadError
  {
    var a1 := a.(previous := a.current, current := a.rest[0], rest := Remaining(a.rest));
    NumberPrefix(a, PrecAssignment);
    ExpressionIs(a);
    var b := NumberConstant(a1);
    NumberKeepsTokens(a1);
    assert |a1.rest| == 1 && a1.rest[0] == a.rest[1];
    InfixMissing(b);
  }

  lemma ExpressionIs(a: Parser)
    requires a.Valid()
    ensures Expression(a) == ParsePrecedence(a, PrecAssignment)
  {
  }

  /** number emits a constant and takes no token. */
  lemma NumberKeepsTokens(a: Parser)
    requires a.Valid()
    ensures NumberConstant(a).current == a.current && NumberConstant(a).rest == a.rest
    ensures NumberConstant(a).panicMode == a.panicMode
  {
  }

  /** The infix loop on '+' with nothing after it but the end of the text reports an error. */
  lemma InfixMissing(b: Parser)
    requires b.Valid() && !b.panicMode && b.current.kind == Plus && |b.rest| == 1 && b.rest[0].kind == EndOfFile
    ensures InfixLoop(b, PrecAssignment).hadError
  {
    InfixStep(b, PrecAssignment);
    assert Remaining(b.rest) == b.rest;
    var c := b.(previous := b.current, current := b.rest[0], rest := Remaining(b.rest));
    RightOperandMissing(c);
    InfixStop(Binary(c), PrecAssignment);
  }

  /** binary on '+' with the end of the text next: the missing prefix rule is reported. */
  lemma RightOperandMissing(c: Parser)
    requires c.Valid() && !c.panicMode && c.previous.kind == Plus && c.current.kind == EndOfFile && c.rest[0].kind == EndOfFile
    ensures Binary(c).hadError && GetRule(Binary(c).current.kind).precedence < PrecAssignment
  {
    var n := GetRule(Plus).precedence + 1;
    AdvanceOver(c);
    var c1 := c.(previous := c.current, current := c.rest[0], rest := Remaining(c.rest));
    assert ParsePrecedence(c, n) == ErrorAt(c1);
    BinaryOperand(c, Plus, n, ErrorAt(c1));
  }
}
