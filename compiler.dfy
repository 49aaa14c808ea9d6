/**
 * The compiler object (source/compiler.cpp): its scanner, the chunk it writes
 * into, the previous and current tokens and the two error flags, updated in
 * place by its member functions. Each method is proved to leave the state the
 * function of the same name in module Parsing computes, so what Parsing proves
 * (the compile theorem) holds of the object.
 */
module Compilers {
  import opened Scanners
  import opened Chunks
  import Values
  import Parsing

  class Compiler {
    var scanner: Scanner
    var chunk: Chunk
    var previous: Token
    var current: Token
    var hadError: bool
    var panicMode: bool

    /** The scanner's cursor is inside its text, and the chunk's line table covers its code. */
    ghost predicate Valid()
      reads this, scanner, chunk
    {
      scanner.Valid() && chunk.Valid() && State().Valid()
    }

    /** The fields, the tokens the scanner still has to hand out and the chunk's contents. */
    ghost function State(): Parsing.Parser
      reads this, scanner, chunk
      requires scanner.Valid()
    {
      Parsing.Parser(previous, current, Tokens(scanner.source, scanner.current, scanner.line),
                     hadError, panicMode, chunk.code, chunk.LineOf(), chunk.constants)
    }

    /** A compiler with no text to compile yet and an empty chunk. */
    constructor ()
      ensures Valid() && State().code == [] && State().constants == [] && !hadError && !panicMode
      ensures previous == Token(Error, [], 0) && current == Token(Error, [], 0)
    {
      scanner := new Scanner(['\0']);
      chunk := new Chunk();
      previous, current := Token(Error, [], 0), Token(Error, [], 0);
      hadError, panicMode := false, false;
    }

    /** errorAt: the report is printed only outside panic mode, and sets both flags. */
    method ErrorAt()
      requires Valid()
      modifies this`hadError, this`panicMode
      ensures Valid() && State() == Parsing.ErrorAt(old(State()))
    {
      if panicMode {
        return;
      }
      panicMode := true;
      hadError := true;
    }

    /** m_current = m_scanner->getToken(): the scanner hands out the first token of its stream. */
    method TakeToken()
      requires Valid()
      modifies this`current, scanner
      ensures Valid()
      ensures State() == old(State()).(current := old(State()).rest[0], rest := Parsing.Remaining(old(State()).rest))
    {
      ghost var before := State();
      Parsing.TokensAdvance(scanner.source, scanner.current, scanner.line);
      current := scanner.GetToken();
      assert Tokens(scanner.source, scanner.current, scanner.line) == Parsing.Remaining(before.rest);
    }

    /** advance: takes tokens from the scanner, reporting each Error token, until one is not an error. */
    method Advance()
      requires Valid()
      modifies this`previous, this`current, this`hadError, this`panicMode, scanner
      ensures Valid() && State() == Parsing.Advance(old(State()))
    {
      previous := current;
      while true
        invariant Valid()
        invariant Parsing.AdvanceLoop(State()) == Parsing.Advance(old(State()))
        decreases |State().rest|
      {
        TakeToken();
        if current.kind != Error {
          break;
        }
        ErrorAt();
      }
    }

    /** consume: advances past a token of the expected type, or reports an error. */
    method Consume(kind: TokenType)
      requires Valid()
      modifies this`previous, this`current, this`hadError, this`panicMode, scanner
      ensures Valid() && State() == Parsing.Consume(old(State()), kind)
    {
      if current.kind == kind {
        Advance();
        return;
      }
      ErrorAt();
    }

    /** emitByte: writes the byte on the previous token's line. */
    method EmitByte(byte: CodeByte)
      requires Valid()
      modifies chunk
      ensures Valid() && State() == Parsing.EmitByte(old(State()), byte)
    {
      chunk.Write(byte, previous.line);
    }

    /** emitConstant: writeConstant on the previous token's line. */
    method EmitConstant(value: Values.Value)
      requires Valid()
      modifies chunk
      ensures Valid() && State() == Parsing.EmitConstant(old(State()), value)
    {
      chunk.WriteConstant(value, previous.line);
    }
  
    /**
     * compile: parses one expression of the text into target, leaving the
     * state CompileText gives for the text, and answers
     * whether no error was reported.
     */
    method Compile(text: string, target: Chunk) returns (ok: bool)
      requires CString(text) && target.Valid()
      modifies this, target
      ensures Valid() && chunk == target && scanner.source == text && |old(target.LineOf())| == |old(target.code)|
      ensures State() == Parsing.CompileText(old(previous), old(current), text,
                                             old(target.code), old(target.LineOf()), old(target.constants))
      ensures ok == !State().hadError
    {
      ghost var stale := (previous, current);
      scanner := new Scanner(text);
      chunk := target;
      hadError := false;
      panicMode := false;
      ExpandedLength(target.lines);
      ghost var start := State();
      assert start == Parsing.Parser(stale.0, stale.1, Tokens(text, 0, 1), false, false,
                                     old(target.code), old(target.LineOf()), old(target.constants));
      Advance();
      Expression();
      Consume(EndOfFile);
      EmitByte(OpReturn);
      ok := !hadError;
    }

    /** expression: parsePrecedence at Assignment. */
    method Expression()
      requires Valid()
      modifies this`previous, this`current, this`hadError, this`panicMode, scanner, chunk
      ensures Valid() && State() == Parsing.Expression(old(State()))
      decreases State().Measure(), 2
    {
      ParsePrecedence(Parsing.PrecAssignment);
    }

    /**
     * parsePrecedence: the prefix rule of the token just taken, then the infix
     * rule of each following operator that binds at least as tightly as the
     * minimum.
     */
    method ParsePrecedence(precedence: nat)
      requires Valid() && precedence >= Parsing.PrecAssignment
      modifies this`previous, this`current, this`hadError, this`panicMode, scanner, chunk
      ensures Valid() && State() == Parsing.ParsePrecedence(old(State()), precedence)
      decreases State().Measure(), 1
    {
      Advance();
      ghost var taken := State();
      var prefixRule := Parsing.GetRule(previous.kind).prefix;
      if prefixRule.None? {
        ErrorAt();
        Parsing.PrefixMissingResult(old(State()), precedence, taken, State());
        return;
      }
      Parsing.PrefixTaken(old(State()), taken);
      Apply(prefixRule.value);
      Parsing.PrefixResult(old(State()), precedence, taken, prefixRule.value, State());
      InfixOperators(precedence);
    }

    /** The loop of parsePrecedence: the infix rule of each operator that binds at least as tightly as the minimum. */
    method InfixOperators(precedence: nat)
      requires Valid() && precedence >= Parsing.PrecAssignment
      modifies this`previous, this`current, this`hadError, this`panicMode, scanner, chunk
      ensures Valid() && State() == Parsing.InfixLoop(old(State()), precedence)
      decreases State().Measure(), 0
    {
      while precedence <= Parsing.GetRule(current.kind).precedence
        invariant Valid() && State().Measure() <= old(State()).Measure()
        invariant Parsing.InfixLoop(State(), precedence) == Parsing.InfixLoop(old(State()), precedence)
        decreases State().Measure()
      {
        ghost var before := State();
        Advance();
        ghost var operator := State();
        Parsing.InfixRules(previous.kind);
        var infixRule := Parsing.GetRule(previous.kind).infix.value;
        Apply(infixRule);
        Parsing.InfixResult(before, precedence, operator, infixRule, State());
      }
      Parsing.InfixStop(State(), precedence);
    }

    /** Calling a parse function through the rules table. */
    method Apply(fn: Parsing.ParseFn)
      requires Valid()
      modifies this`previous, this`current, this`hadError, this`panicMode, scanner, chunk
      ensures Valid() && State() == Parsing.Apply(old(State()), fn)
      decreases State().Measure(), 4
    {
      match fn
      case GroupingFn => Grouping();
      case UnaryFn => Unary();
      case BinaryFn => Binary();
      case NumberFn => NumberConstant();
    }

    /** number: the constant the previous token's text denotes. */
    method NumberConstant()
      requires Valid()
      modifies chunk
      ensures Valid() && State() == Parsing.NumberConstant(old(State()))
      decreases State().Measure(), 3
    {
      EmitConstant(Values.Number(Parsing.NumberValue(previous.lexeme)));
    }

    /** grouping: an expression, then the closing parenthesis. */
    method Grouping()
      requires Valid()
      modifies this`previous, this`current, this`hadError, this`panicMode, scanner, chunk
      ensures Valid() && State() == Parsing.Grouping(old(State()))
      decreases State().Measure(), 3
    {
      Expression();
      Consume(RightParen);
    }

    /** unary: the operand at Unary precedence, then Negate for '-'. */
    method Unary()
      requires Valid()
      modifies this`previous, this`current, this`hadError, this`panicMode, scanner, chunk
      ensures Valid() && State() == Parsing.Unary(old(State()))
      decreases State().Measure(), 3
    {
      var operatorType := previous.kind;
      ParsePrecedence(Parsing.PrecUnary);
      if operatorType == Minus {
        EmitByte(OpNegate);
      }
    }

    /** binary: the right operand one level above the operator's precedence, then the operator's opcode. */
    method Binary()
      requires Valid()
      modifies this`previous, this`current, this`hadError, this`panicMode, scanner, chunk
      ensures Valid() && State() == Parsing.Binary(old(State()))
      decreases State().Measure(), 3
    {
      ghost var before := State();
      var operatorType := previous.kind;
      var rule := Parsing.GetRule(operatorType);
      ParsePrecedence(rule.precedence + 1);
      ghost var operand := State();
      var opcode := Parsing.OperatorCode(operatorType);
      if opcode.Some? {
        EmitByte(opcode.value);
      }
      Parsing.BinaryResult(before, rule.precedence + 1, operand, opcode, State());
    }
  }
}
