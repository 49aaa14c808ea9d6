/**
 * The virtual machine (source/vm.cpp): a dispatch loop over the bytecode of a
 * chunk, a value stack and a table of global variables.
 *
 * The specification is a function from one machine state to the next. A
 * machine state is the instruction pointer, the stack, the globals table's
 * contents and the text of every String object the values refer to: strings
 * are objects, and '+' on two strings appends to the left one in place, so
 * every value referring to that object (a constant of the pool, a global)
 * sees the longer text afterwards. The class VM at the end of this module is
 * proved to follow that function step by step.
 */
module VMs {
  import opened Wrappers
  import opened LuxStrings
  import opened Values
  import opened Chunks
  import HashTables
  import Objects
  import Scanners
  import Parsing
  import Compilers

  /** InterpretResult. */
  datatype InterpretResult = Success | CompilationError | RuntimeError

  /** Value::operator bool: every value except nil and false converts to true. */
  predicate Truthy(v: Value)
  {
    !(v.Nil? || (v.Bool? && !v.boolean))
  }

  /** isFalsey: exactly nil and false are falsey, the opposite of the conversion to bool. */
  function IsFalsey(v: Value): (r: bool)
    ensures r <==> v == Nil || v == Bool(false)
    ensures r <==> !Truthy(v)
  {
    v.Nil? || (v.Bool? && !v.boolean)
  }

  // ---------------------------------------------------------------------------
  // Machine states
  // ---------------------------------------------------------------------------

  /** The registers of the loop, the globals' contents and the heap's String texts. */
  datatype Machine = Machine(ip: nat, stack: seq<Value>, globals: map<StringData, Value>,
                             texts: map<LuxString, StringData>)

  /** The loop either goes on with the next instruction, or returns a result. */
  datatype Outcome = Next(m: Machine) | Halt(result: InterpretResult, m: Machine)

  /** A String the VM can compute with: valid, and holding at least its terminator. */
  predicate GoodText(d: StringData)
  {
    d.Valid() && d.size >= 1
  }

  predicate HeapOk(texts: map<LuxString, StringData>)
  {
    forall o :: o in texts ==> GoodText(texts[o])
  }

  /** The object a value refers to, if any, is one of the heap's. */
  predicate Refers(texts: map<LuxString, StringData>, v: Value)
  {
    v.Obj? ==> v.obj in texts
  }

  predicate AllRefer(texts: map<LuxString, StringData>, vs: seq<Value>)
  {
    forall i :: 0 <= i < |vs| ==> Refers(texts, vs[i])
  }

  /** Every object the constants, the stack and the globals refer to has a good text in the heap. */
  predicate Closed(constants: seq<Value>, m: Machine)
  {
    HeapOk(m.texts) && AllRefer(m.texts, constants) && AllRefer(m.texts, m.stack) &&
    forall k :: k in m.globals ==> Refers(m.texts, m.globals[k])
  }

  /** Value::operator== on the heap's texts: tags first, then payloads; Strings by content. */
  predicate EqualIn(texts: map<LuxString, StringData>, a: Value, b: Value)
    requires Refers(texts, a) && Refers(texts, b)
  {
    a.Tag() == b.Tag() &&
    match a
    case Nil => true
    case Bool(x) => x == b.boolean
    case Number(n) => n == b.number
    case Obj(o) => o.objectType == b.obj.objectType && StrEqual(texts[o], texts[b.obj])
  }

  // ---------------------------------------------------------------------------
  // Instructions
  // ---------------------------------------------------------------------------

  /** The operand bytes after an opcode: a one-byte pool index, or three bytes for a Long form. */
  function OperandBytes(op: CodeByte): nat
  {
    if op == OpConstant || op == OpDefGlobal then 1
    else if op == OpConstantLong || op == OpDefGlobalLong then 3
    else 0
  }

  /** The stack values an instruction reads. */
  function Operands(op: CodeByte): nat
  {
    if op == OpDefGlobal || op == OpDefGlobalLong || op == OpNegate || op == OpNot ||
       op == OpPrint || op == OpPop then 1
    else if OpAdd <= op <= OpDivide || OpEqual <= op <= OpGreaterEqual then 2
    else 0
  }

  /** The pool index operand of the instruction at ip. */
  function OperandIndex(code: seq<CodeByte>, ip: nat): nat
    requires ip < |code| && ip + OperandBytes(code[ip]) < |code|
  {
    if OperandBytes(code[ip]) == 3 then DecodeIndex(code[ip..ip + 4])
    else if OperandBytes(code[ip]) == 1 then code[ip + 1]
    else 0
  }

  /**
   * What the loop needs to execute the instruction at ip without undefined
   * behaviour: the opcode and its operands inside the code, enough values on
   * the stack, a pool index inside the pool, and an object as the name of a
   * global being defined.
   */
  predicate CanStep(code: seq<CodeByte>, constants: seq<Value>, m: Machine)
  {
    Closed(constants, m) && m.ip < |code| && m.ip + OperandBytes(code[m.ip]) < |code| &&
    Operands(code[m.ip]) <= |m.stack| &&
    (OperandBytes(code[m.ip]) > 0 ==> OperandIndex(code, m.ip) < |constants|) &&
    ((code[m.ip] == OpDefGlobal || code[m.ip] == OpDefGlobalLong) ==>
       constants[OperandIndex(code, m.ip)].Obj?)
  }

  /** The values an instruction leaves where its operands were, when it does not fail. */
  function Results(op: CodeByte): nat
  {
    if op == OpConstant || op == OpConstantLong || op == OpNil || op == OpTrue || op == OpFalse ||
       op == OpNegate || OpAdd <= op <= OpGreaterEqual then 1
    else 0
  }

  /** after replaces the top operands values of before by results values, and keeps what is below. */
  predicate Kept(before: seq<Value>, operands: nat, results: nat, after: seq<Value>)
    requires operands <= |before|
  {
    |after| == |before| - operands + results && after[..|before| - operands] == before[..|before| - operands]
  }

  /** Every binding of the first table is in the second, with the same value. */
  predicate Extends(globals: map<StringData, Value>, later: map<StringData, Value>)
  {
    forall k :: k in globals ==> k in later && later[k] == globals[k]
  }

  /**
   * The instructions that stop with a run-time error: a global defined twice,
   * a non-number negated, '+' on anything but two numbers or two strings,
   * and the other arithmetic and the comparisons on anything but two numbers.
   */
  predicate Rejects(code: seq<CodeByte>, constants: seq<Value>, m: Machine)
    requires CanStep(code, constants, m)
  {
    var op := code[m.ip];
    if op == OpDefGlobal || op == OpDefGlobalLong then m.texts[constants[OperandIndex(code, m.ip)].obj] in m.globals
    else if op == OpNegate then !StackAt(m, 0).Number?
    else if op == OpAdd then
      !(StackAt(m, 0).IsString() && StackAt(m, 1).IsString()) && !(StackAt(m, 0).Number? && StackAt(m, 1).Number?)
    else if OpSubtract <= op <= OpDivide || OpLess <= op <= OpGreaterEqual then
      !StackAt(m, 0).Number? || !StackAt(m, 1).Number?
    else false
  }

  /** The value distance places below the top of the stack: peek(distance). */
  function StackAt(m: Machine, distance: nat): Value
    requires distance < |m.stack|
  {
    m.stack[|m.stack| - 1 - distance]
  }

  // The cases of the switch. Each takes the state after the opcode and its
  // operand bytes have been read, so none of them moves the instruction pointer.

  /** runtimeError, then return RuntimeError: the stack is cleared. */
  function Fail(m: Machine): (o: Outcome)
    ensures o.m.ip == m.ip
  {
    Halt(RuntimeError, m.(stack := []))
  }

  function PushValue(m: Machine, v: Value): (o: Outcome)
    ensures o.m.ip == m.ip
  {
    Next(m.(stack := m.stack + [v]))
  }

  /** DefGlobal: a name already defined is an error; otherwise the popped value is bound to a copy of the name. */
  function DefineGlobal(m: Machine, name: StringData): (o: Outcome)
    requires |m.stack| >= 1
    ensures o.m.ip == m.ip
  {
    if name in m.globals then Fail(m)
    else Next(m.(stack := m.stack[..|m.stack| - 1], globals := m.globals[name := StackAt(m, 0)]))
  }

  /** Negate: the top must be a number, and is negated in place. */
  function Negate(m: Machine): (o: Outcome)
    requires |m.stack| >= 1
    ensures o.m.ip == m.ip
  {
    var top := StackAt(m, 0);
    if !top.Number? then Fail(m)
    else Next(m.(stack := m.stack[|m.stack| - 1 := Number(-top.number)]))
  }

  /**
   * Add: with two strings the right one is popped and its text appended to the
   * left String object in place, which stays on the stack; with two numbers
   * the right one is popped and added into the left; anything else is an error.
   */
  function Add(m: Machine): (o: Outcome)
    requires |m.stack| >= 2 && HeapOk(m.texts) && AllRefer(m.texts, m.stack)
    ensures o.m.ip == m.ip
  {
    var a, b := StackAt(m, 1), StackAt(m, 0);
    var rest := m.stack[..|m.stack| - 1];
    if b.IsString() && a.IsString() then
      Next(m.(stack := rest, texts := m.texts[a.obj := Concatenated(m.texts[a.obj], m.texts[b.obj])]))
    else if b.Number? && a.Number? then
      Next(m.(stack := rest[|rest| - 1 := Number(a.number + b.number)]))
    else Fail(m)
  }

  /** A zero divisor gives zero: the model's numbers are reals, without IEEE infinities. */
  function Quotient(a: real, b: real): real
  {
    if b == 0.0 then 0.0 else a / b
  }

  function Arith(op: CodeByte, a: real, b: real): real
    requires OpSubtract <= op <= OpDivide
  {
    if op == OpSubtract then a - b else if op == OpMultiply then a * b else Quotient(a, b)
  }

  /** BINARY_OP_N (Subtract, Multiply, Divide): two numbers; the right one is popped and combined into the left. */
  function BinaryNumber(m: Machine, op: CodeByte): (o: Outcome)
    requires |m.stack| >= 2 && OpSubtract <= op <= OpDivide
    ensures o.m.ip == m.ip
  {
    var a, b := StackAt(m, 1), StackAt(m, 0);
    var rest := m.stack[..|m.stack| - 1];
    if !b.Number? || !a.Number? then Fail(m)
    else Next(m.(stack := rest[|rest| - 1 := Number(Arith(op, a.number, b.number))]))
  }

  /** Not: the top is replaced by the boolean saying whether it is falsey. */
  function Not(m: Machine): (o: Outcome)
    requires |m.stack| >= 1
    ensures o.m.ip == m.ip
  {
    Next(m.(stack := m.stack[|m.stack| - 1 := Bool(IsFalsey(StackAt(m, 0)))]))
  }

  /** Equal and NotEqual: both operands are popped and the result of == or != is pushed. */
  function Equality(m: Machine, negated: bool): (o: Outcome)
    requires |m.stack| >= 2 && AllRefer(m.texts, m.stack)
    ensures o.m.ip == m.ip
  {
    var a, b := StackAt(m, 1), StackAt(m, 0);
    Next(m.(stack := m.stack[..|m.stack| - 2] + [Bool(EqualIn(m.texts, a, b) != negated)]))
  }

  function Compare(op: CodeByte, a: real, b: real): bool
    requires OpLess <= op <= OpGreaterEqual
  {
    if op == OpLess then a < b
    else if op == OpLessEqual then a <= b
    else if op == OpGreater then a > b
    else a >= b
  }

  /** BINARY_OP_B (Less, LessEqual, Greater, GreaterEqual): two numbers, popped, and the comparison's boolean pushed. */
  function BinaryBool(m: Machine, op: CodeByte): (o: Outcome)
    requires |m.stack| >= 2 && OpLess <= op <= OpGreaterEqual
    ensures o.m.ip == m.ip
  {
    var a, b := StackAt(m, 1), StackAt(m, 0);
    if !b.Number? || !a.Number? then Fail(m)
    else Next(m.(stack := m.stack[..|m.stack| - 2] + [Bool(Compare(op, a.number, b.number))]))
  }

  /** Print and Pop: the top is popped (printing it is output, outside the model). */
  function Drop(m: Machine): (o: Outcome)
    requires |m.stack| >= 1
    ensures o.m.ip == m.ip
  {
    Next(m.(stack := m.stack[..|m.stack| - 1]))
  }

  /**
   * One pass of the loop: READ_BYTE the opcode and its operand bytes, then do
   * what its case of the switch does. An opcode the switch has no case for
   * (the local and get/set global ones) is read and nothing else happens.
   */
  function Step(code: seq<CodeByte>, constants: seq<Value>, m: Machine): (o: Outcome)
    requires CanStep(code, constants, m)
    ensures o.m.ip == m.ip + 1 + OperandBytes(code[m.ip]) <= |code|
  {
    var op := code[m.ip];
    var n := m.(ip := m.ip + 1 + OperandBytes(op));
    if op == OpConstant || op == OpConstantLong then PushValue(n, constants[OperandIndex(code, m.ip)])
    else if op == OpDefGlobal || op == OpDefGlobalLong then
      DefineGlobal(n, m.texts[constants[OperandIndex(code, m.ip)].obj])
    else if op == OpNil then PushValue(n, Nil)
    else if op == OpTrue then PushValue(n, Bool(true))
    else if op == OpFalse then PushValue(n, Bool(false))
    else if op == OpNegate then Negate(n)
    else if op == OpAdd then Add(n)
    else if OpSubtract <= op <= OpDivide then BinaryNumber(n, op)
    else if op == OpNot then Not(n)
    else if op == OpEqual || op == OpNotEqual then Equality(n, op == OpNotEqual)
    else if OpLess <= op <= OpGreaterEqual then BinaryBool(n, op)
    else if op == OpPrint || op == OpPop then Drop(n)
    else if op == OpReturn then Halt(Success, n)
    else Next(n)
  }

  /**
   * What one instruction does, whatever it is: it stops with a run-time error
   * exactly when Rejects says so, and then with an empty stack; it stops with
   * Success exactly at Return; otherwise it replaces its operands on the stack
   * by its results and leaves the values below them alone. It never unbinds or
   * rebinds a global, never drops a String from the heap, and keeps the heap
   * closed.
   */
  predicate Effect(code: seq<CodeByte>, constants: seq<Value>, m: Machine, o: Outcome)
    requires CanStep(code, constants, m)
  {
    ((o.Halt? && o.result == RuntimeError) <==> Rejects(code, constants, m)) &&
    ((o.Halt? && o.result == Success) <==> code[m.ip] == OpReturn) &&
    (o.Halt? && o.result == RuntimeError ==> o.m.stack == []) &&
    (!Rejects(code, constants, m) ==> Kept(m.stack, Operands(code[m.ip]), Results(code[m.ip]), o.m.stack)) &&
    Closed(constants, o.m) && Extends(m.globals, o.m.globals) && o.m.texts.Keys == m.texts.Keys
  }

  lemma StepOutcome(code: seq<CodeByte>, constants: seq<Value>, m: Machine)
    requires CanStep(code, constants, m)
    ensures Effect(code, constants, m, Step(code, constants, m))
  {
    var op := code[m.ip];
    if op == OpDefGlobal || op == OpDefGlobalLong {
      DefineEffect(code, constants, m);
    } else if op == OpNegate {
      NegateEffect(code, constants, m);
    } else if op == OpAdd {
      AddEffect(code, constants, m);
    } else if OpSubtract <= op <= OpDivide {
      ArithEffect(code, constants, m);
    } else if op == OpNot {
      NotEffect(code, constants, m);
    } else if op == OpEqual || op == OpNotEqual {
      EqualityEffect(code, constants, m);
    } else if OpLess <= op <= OpGreaterEqual {
      CompareEffect(code, constants, m);
    } else if op == OpPrint || op == OpPop {
      DropEffect(code, constants, m);
    } else {
      PushEffect(code, constants, m);
    }
  }

  lemma PushEffect(code: seq<CodeByte>, constants: seq<Value>, m: Machine)
    requires CanStep(code, constants, m)
    requires code[m.ip] !in {OpDefGlobal, OpDefGlobalLong, OpNegate, OpAdd, OpNot, OpPrint, OpPop}
    requires !(OpSubtract <= code[m.ip] <= OpDivide) && !(OpEqual <= code[m.ip] <= OpGreaterEqual)
    ensures Effect(code, constants, m, Step(code, constants, m))
  {
  }

  lemma DefineEffect(code: seq<CodeByte>, constants: seq<Value>, m: Machine)
    requires CanStep(code, constants, m) && (code[m.ip] == OpDefGlobal || code[m.ip] == OpDefGlobalLong)
    ensures Effect(code, constants, m, Step(code, constants, m))
  {
  }

  lemma NegateEffect(code: seq<CodeByte>, constants: seq<Value>, m: Machine)
    requires CanStep(code, constants, m) && code[m.ip] == OpNegate
    ensures Effect(code, constants, m, Step(code, constants, m))
  {
  }

  lemma AddEffect(code: seq<CodeByte>, constants: seq<Value>, m: Machine)
    requires CanStep(code, constants, m) && code[m.ip] == OpAdd
    ensures Effect(code, constants, m, Step(code, constants, m))
  {
    var n := m.(ip := m.ip + 1);
    if StackAt(n, 0).IsString() && StackAt(n, 1).IsString() {
      AddStringsEffect(code, constants, m);
    } else if StackAt(n, 0).Number? && StackAt(n, 1).Number? {
      AddNumbersEffect(code, constants, m);
    }
  }

  lemma AddStringsEffect(code: seq<CodeByte>, constants: seq<Value>, m: Machine)
    requires CanStep(code, constants, m) && code[m.ip] == OpAdd
    requires StackAt(m, 0).IsString() && StackAt(m, 1).IsString()
    ensures Effect(code, constants, m, Step(code, constants, m))
  {
    var n := m.(ip := m.ip + 1);
    assert StackAt(n, 0) == StackAt(m, 0) && StackAt(n, 1) == StackAt(m, 1);
  }

  lemma AddNumbersEffect(code: seq<CodeByte>, constants: seq<Value>, m: Machine)
    requires CanStep(code, constants, m) && code[m.ip] == OpAdd
    requires StackAt(m, 0).Number? && StackAt(m, 1).Number?
    ensures Effect(code, constants, m, Step(code, constants, m))
  {
    var n := m.(ip := m.ip + 1);
    assert StackAt(n, 0) == StackAt(m, 0) && StackAt(n, 1) == StackAt(m, 1);
  }

  lemma ArithEffect(code: seq<CodeByte>, constants: seq<Value>, m: Machine)
    requires CanStep(code, constants, m) && OpSubtract <= code[m.ip] <= OpDivide
    ensures Effect(code, constants, m, Step(code, constants, m))
  {
  }

  lemma NotEffect(code: seq<CodeByte>, constants: seq<Value>, m: Machine)
    requires CanStep(code, constants, m) && code[m.ip] == OpNot
    ensures Effect(code, constants, m, Step(code, constants, m))
  {
  }

  lemma EqualityEffect(code: seq<CodeByte>, constants: seq<Value>, m: Machine)
    requires CanStep(code, constants, m) && (code[m.ip] == OpEqual || code[m.ip] == OpNotEqual)
    ensures Effect(code, constants, m, Step(code, constants, m))
  {
  }

  lemma CompareEffect(code: seq<CodeByte>, constants: seq<Value>, m: Machine)
    requires CanStep(code, constants, m) && OpLess <= code[m.ip] <= OpGreaterEqual
    ensures Effect(code, constants, m, Step(code, constants, m))
  {
    var n := m.(ip := m.ip + 1);
    assert StackAt(n, 0) == StackAt(m, 0) && StackAt(n, 1) == StackAt(m, 1);
  }

  lemma DropEffect(code: seq<CodeByte>, constants: seq<Value>, m: Machine)
    requires CanStep(code, constants, m) && (code[m.ip] == OpPrint || code[m.ip] == OpPop)
    ensures Effect(code, constants, m, Step(code, constants, m))
  {
  }

  /** The end of a run: the result and the last state, or undefined behaviour on the way. */
  datatype Run = Finished(result: InterpretResult, final: Machine) | Undefined

  /** run: steps until an instruction returns. */
  function Exec(code: seq<CodeByte>, constants: seq<Value>, m: Machine): Run
    decreases |code| - m.ip
  {
    if !CanStep(code, constants, m) then Undefined
    else match Step(code, constants, m)
      case Halt(r, last) => Finished(r, last)
      case Next(n) => Exec(code, constants, n)
  }

  /**
   * A run that ends does so at a Return (the result is Success) or at a
   * run-time error (the result is RuntimeError and the stack has been
   * cleared), never with a compile error; it leaves the heap closed, keeps
   * every String of the heap, and every global bound on the way in is still
   * bound to the same value.
   */
  lemma {:induction false} ExecOutcome(code: seq<CodeByte>, constants: seq<Value>, m: Machine)
    ensures var r := Exec(code, constants, m);
      r.Finished? ==>
        (Closed(constants, r.final) && r.result != CompilationError &&
         (r.result == Success ==> 1 <= r.final.ip <= |code| && code[r.final.ip - 1] == OpReturn) &&
         (r.result == RuntimeError ==> r.final.stack == []) &&
         Extends(m.globals, r.final.globals) && r.final.texts.Keys == m.texts.Keys)
    decreases |code| - m.ip
  {
    if CanStep(code, constants, m) {
      StepOutcome(code, constants, m);
      var o := Step(code, constants, m);
      if o.Next? {
        ExecOutcome(code, constants, o.m);
      }
    }
  }

  // ---------------------------------------------------------------------------
  // Running compiled arithmetic
  // ---------------------------------------------------------------------------

  /** What an arithmetic operator token computes, independently of any opcode. */
  function Operate(kind: Scanners.TokenType, x: real, y: real): real
  {
    if kind == Scanners.TokenType.Plus then x + y
    else if kind == Scanners.TokenType.Minus then x - y
    else if kind == Scanners.TokenType.Star then x * y
    else Quotient(x, y)
  }

  /** The value of an arithmetic expression, computed on the tree. */
  function Val(e: Parsing.Expr): real
  {
    match e
    case Num(t) => Parsing.NumberValue(t.lexeme)
    case Neg(_, x) => -Val(x)
    case Bin(l, op, r) => Operate(op.kind, Val(l), Val(r))
    case Group(_, x, _) => Val(x)
  }

  /** part occurs in whole at index i. */
  predicate At<T(==)>(whole: seq<T>, i: nat, part: seq<T>)
  {
    i + |part| <= |whole| && whole[i..i + |part|] == part
  }

  lemma AtSplit<T>(whole: seq<T>, i: nat, a: seq<T>, b: seq<T>)
    requires At(whole, i, a + b)
    ensures At(whole, i, a) && At(whole, i + |a|, b)
  {
    assert whole[i..i + |a|] == whole[i..i + |a + b|][..|a|];
    assert whole[i + |a|..i + |a| + |b|] == whole[i..i + |a + b|][|a|..];
  }

  /** The constants an expression compiles to are numbers. */
  lemma {:induction false} ConstsAreNumbers(e: Parsing.Expr)
    ensures forall i :: 0 <= i < |Parsing.Consts(e)| ==> Parsing.Consts(e)[i].Number?
  {
    match e
    case Num(_) =>
    case Neg(_, x) => ConstsAreNumbers(x);
    case Bin(l, _, r) => ConstsAreNumbers(l); ConstsAreNumbers(r);
    case Group(_, x, _) => ConstsAreNumbers(x);
  }

  lemma ExecNext(code: seq<CodeByte>, constants: seq<Value>, m: Machine, n: Machine)
    requires CanStep(code, constants, m) && Step(code, constants, m) == Next(n)
    ensures Exec(code, constants, m) == Exec(code, constants, n)
  {
  }

  /** A number pushed on a closed state leaves it closed, wherever the instruction pointer goes. */
  lemma ClosedPush(constants: seq<Value>, m: Machine, n: Machine, x: real)
    requires Closed(constants, m)
    requires n.stack == m.stack + [Number(x)] && n.globals == m.globals && n.texts == m.texts
    ensures Closed(constants, n)
  {
    assert forall i :: 0 <= i < |m.stack| ==> n.stack[i] == m.stack[i];
  }

  /** Constant or ConstantLong, written for pool index i, pushes constants[i]. */
  lemma ConstantStep(code: seq<CodeByte>, constants: seq<Value>, m: Machine, i: nat)
    requires Closed(constants, m) && At(code, m.ip, EncodeIndexed(OpConstant, OpConstantLong, i))
    requires i < |constants| && i < 16777216
    ensures var n := m.(ip := m.ip + |EncodeIndexed(OpConstant, OpConstantLong, i)|, stack := m.stack + [constants[i]]);
      Exec(code, constants, m) == Exec(code, constants, n)
  {
    var bytes := EncodeIndexed(OpConstant, OpConstantLong, i);
    EncodeIndexedRoundTrip(OpConstant, OpConstantLong, i);
    assert code[m.ip] == bytes[0];
    if i >= 256 {
      assert code[m.ip..m.ip + 4] == bytes;
    } else {
      assert code[m.ip + 1] == bytes[1];
    }
    assert OperandIndex(code, m.ip) == i;
    ExecNext(code, constants, m, m.(ip := m.ip + |bytes|, stack := m.stack + [constants[i]]));
  }

  /** Negate on a number x on top replaces it by -x. */
  lemma NegateStep(code: seq<CodeByte>, constants: seq<Value>, m: Machine, below: seq<Value>, x: real, n: Machine)
    requires Closed(constants, m) && At(code, m.ip, [OpNegate]) && m.stack == below + [Number(x)]
    requires n == m.(ip := m.ip + 1, stack := below + [Number(-x)])
    ensures Exec(code, constants, m) == Exec(code, constants, n)
  {
    assert code[m.ip] == code[m.ip..m.ip + 1][0];
    assert StackAt(m.(ip := m.ip + 1), 0) == Number(x);
    assert m.stack[|m.stack| - 1 := Number(-x)] == below + [Number(-x)];
    ExecNext(code, constants, m, n);
  }

  /** The opcode of an arithmetic operator, on two numbers x and y on top, replaces them by what the operator computes. */
  lemma OperatorStep(code: seq<CodeByte>, constants: seq<Value>, m: Machine, below: seq<Value>,
                     kind: Scanners.TokenType, x: real, y: real, n: Machine)
    requires Closed(constants, m) && Parsing.Arithmetic(kind) && At(code, m.ip, [Parsing.OperatorCode(kind).value])
    requires m.stack == below + [Number(x), Number(y)]
    requires n.ip == m.ip + 1 && n.stack == below + [Number(Operate(kind, x, y))]
    requires n.globals == m.globals && n.texts == m.texts
    ensures Exec(code, constants, m) == Exec(code, constants, n)
  {
    assert code[m.ip] == code[m.ip..m.ip + 1][0];
    assert n == m.(ip := m.ip + 1, stack := below + [Number(Operate(kind, x, y))]);
    if kind == Scanners.TokenType.Plus {
      AddStep(code, constants, m, below, x, y);
    } else {
      ArithStep(code, constants, m, below, x, y);
      OperatorArith(kind, x, y);
    }
    ExecNext(code, constants, m, n);
  }

  lemma AddStep(code: seq<CodeByte>, constants: seq<Value>, m: Machine, below: seq<Value>, x: real, y: real)
    requires Closed(constants, m) && m.ip < |code| && code[m.ip] == OpAdd && m.stack == below + [Number(x), Number(y)]
    ensures CanStep(code, constants, m)
    ensures Step(code, constants, m) == Next(m.(ip := m.ip + 1, stack := below + [Number(x + y)]))
  {
    var rest := m.stack[..|m.stack| - 1];
    assert rest == below + [Number(x)];
    assert rest[|rest| - 1 := Number(x + y)] == below + [Number(x + y)];
  }

  lemma ArithStep(code: seq<CodeByte>, constants: seq<Value>, m: Machine, below: seq<Value>, x: real, y: real)
    requires Closed(constants, m) && m.ip < |code| && OpSubtract <= code[m.ip] <= OpDivide
    requires m.stack == below + [Number(x), Number(y)]
    ensures CanStep(code, constants, m)
    ensures Step(code, constants, m) == Next(m.(ip := m.ip + 1, stack := below + [Number(Arith(code[m.ip], x, y))]))
  {
    var rest := m.stack[..|m.stack| - 1];
    assert rest == below + [Number(x)];
    assert rest[|rest| - 1 := Number(Arith(code[m.ip], x, y))] == below + [Number(Arith(code[m.ip], x, y))];
  }

  /** '-', '*' and '/' compile to the opcodes that compute what they mean. */
  lemma OperatorArith(kind: Scanners.TokenType, x: real, y: real)
    requires Parsing.Arithmetic(kind) && kind != Scanners.TokenType.Plus
    ensures OpSubtract <= Parsing.OperatorCode(kind).value <= OpDivide
    ensures Arith(Parsing.OperatorCode(kind).value, x, y) == Operate(kind, x, y)
  {
  }

  /** The state after the code of e has run from m: past the code, with the value of e pushed. */
  function Target(m: Machine, e: Parsing.Expr, base: nat): Machine
  {
    m.(ip := m.ip + |Parsing.Code(e, base)|, stack := m.stack + [Number(Val(e))])
  }

  /**
   * The code the compiler writes for an arithmetic expression, run from a
   * closed state, pushes the expression's value and ends right after itself:
   * it leaves the run to whatever follows it. Its constants must sit at the
   * indices the code was written for, inside the 24 bits an index can use.
   */
  lemma {:induction false} ExecTree(code: seq<CodeByte>, constants: seq<Value>, m: Machine, e: Parsing.Expr, base: nat)
    requires Parsing.WellFormed(e) && Closed(constants, m)
    requires At(code, m.ip, Parsing.Code(e, base)) && At(constants, base, Parsing.Consts(e))
    requires base + |Parsing.Consts(e)| <= 16777216
    ensures Exec(code, constants, m) == Exec(code, constants, Target(m, e, base))
    decreases e, 2
  {
    match e
    case Num(_) => ExecNum(code, constants, m, e, base);
    case Neg(_, x) => ExecNeg(code, constants, m, x, e, base);
    case Bin(l, op, r) => ExecBin(code, constants, m, l, op, r, e, base);
    case Group(_, x, _) => ExecGroup(code, constants, m, x, e, base);
  }

  lemma ExecNum(code: seq<CodeByte>, constants: seq<Value>, m: Machine, e: Parsing.Expr, base: nat)
    requires e.Num? && Parsing.WellFormed(e) && Closed(constants, m)
    requires At(code, m.ip, Parsing.Code(e, base)) && At(constants, base, Parsing.Consts(e))
    requires base + |Parsing.Consts(e)| <= 16777216
    ensures Exec(code, constants, m) == Exec(code, constants, Target(m, e, base))
  {
    assert constants[base] == constants[base..base + 1][0];
    ConstantStep(code, constants, m, base);
  }

  lemma {:induction false} ExecGroup(code: seq<CodeByte>, constants: seq<Value>, m: Machine, x: Parsing.Expr,
                                     e: Parsing.Expr, base: nat)
    requires e.Group? && e.inner == x && Parsing.WellFormed(e) && Closed(constants, m)
    requires At(code, m.ip, Parsing.Code(e, base)) && At(constants, base, Parsing.Consts(e))
    requires base + |Parsing.Consts(e)| <= 16777216
    ensures Exec(code, constants, m) == Exec(code, constants, Target(m, e, base))
    decreases e, 0
  {
    GroupParts(m, e, x, base);
    ExecTree(code, constants, m, x, base);
  }

  lemma GroupParts(m: Machine, e: Parsing.Expr, x: Parsing.Expr, base: nat)
    requires e.Group? && e.inner == x && Parsing.WellFormed(e)
    ensures Parsing.WellFormed(x) && Parsing.Consts(e) == Parsing.Consts(x)
    ensures Parsing.Code(e, base) == Parsing.Code(x, base) && Target(m, e, base) == Target(m, x, base)
  {
  }

  lemma {:induction false} ExecNeg(code: seq<CodeByte>, constants: seq<Value>, m: Machine, x: Parsing.Expr,
                                   e: Parsing.Expr, base: nat)
    requires e.Neg? && e.operand == x && Parsing.WellFormed(e) && Closed(constants, m)
    requires At(code, m.ip, Parsing.Code(e, base)) && At(constants, base, Parsing.Consts(e))
    requires base + |Parsing.Consts(e)| <= 16777216
    ensures Exec(code, constants, m) == Exec(code, constants, Target(m, e, base))
    decreases e, 0
  {
    var m1 := Target(m, x, base);
    var t := Target(m, e, base);
    assert Exec(code, constants, m) == Exec(code, constants, m1) && At(code, m1.ip, [OpNegate]) &&
           t == m1.(ip := m1.ip + 1, stack := m.stack + [Number(-Val(x))]) by {
      NegParts(m, e, x, base);
      AtSplit(code, m.ip, Parsing.Code(x, base), [OpNegate]);
      ExecTree(code, constants, m, x, base);
    }
    assert Closed(constants, m1) by {
      ClosedPush(constants, m, m1, Val(x));
    }
    NegateStep(code, constants, m1, m.stack, Val(x), t);
  }

  lemma NegParts(m: Machine, e: Parsing.Expr, x: Parsing.Expr, base: nat)
    requires e.Neg? && e.operand == x && Parsing.WellFormed(e)
    ensures Parsing.WellFormed(x) && Parsing.Consts(e) == Parsing.Consts(x)
    ensures Parsing.Code(e, base) == Parsing.Code(x, base) + [OpNegate]
    ensures Target(m, x, base).ip == m.ip + |Parsing.Code(x, base)|
    ensures Target(m, e, base) ==
            Target(m, x, base).(ip := Target(m, x, base).ip + 1, stack := m.stack + [Number(-Val(x))])
  {
  }

  lemma {:induction false} ExecBin(code: seq<CodeByte>, constants: seq<Value>, m: Machine, l: Parsing.Expr,
                                   op: Scanners.Token, r: Parsing.Expr, e: Parsing.Expr, base: nat)
    requires e == Parsing.Bin(l, op, r) && Parsing.WellFormed(e) && Closed(constants, m)
    requires At(code, m.ip, Parsing.Code(e, base)) && At(constants, base, Parsing.Consts(e))
    requires base + |Parsing.Consts(e)| <= 16777216
    ensures Exec(code, constants, m) == Exec(code, constants, Target(m, e, base))
    decreases e, 1
  {
    BinSplit(code, constants, m, l, op, r, e, base);
    ExecTree(code, constants, m, l, base);
    ExecRight(code, constants, m, l, op, r, e, base);
  }

  /** Where the parts of a binary expression's code and constants sit. */
  lemma BinSplit(code: seq<CodeByte>, constants: seq<Value>, m: Machine,
                 l: Parsing.Expr, op: Scanners.Token, r: Parsing.Expr, e: Parsing.Expr, base: nat)
    requires e == Parsing.Bin(l, op, r) && Parsing.WellFormed(e)
    requires At(code, m.ip, Parsing.Code(e, base)) && At(constants, base, Parsing.Consts(e))
    requires base + |Parsing.Consts(e)| <= 16777216
    ensures Parsing.WellFormed(l) && At(code, m.ip, Parsing.Code(l, base)) && At(constants, base, Parsing.Consts(l))
    ensures base + |Parsing.Consts(l)| <= 16777216
    ensures At(code, m.ip + |Parsing.Code(l, base)|, Parsing.Code(r, base + |Parsing.Consts(l)|))
    ensures At(code, m.ip + |Parsing.Code(l, base) + Parsing.Code(r, base + |Parsing.Consts(l)|)|,
               [Parsing.OperatorCode(op.kind).value])
    ensures At(constants, base + |Parsing.Consts(l)|, Parsing.Consts(r))
  {
    var cl, cr := Parsing.Code(l, base), Parsing.Code(r, base + |Parsing.Consts(l)|);
    var kl, kr := Parsing.Consts(l), Parsing.Consts(r);
    assert Parsing.WellFormed(l) && At(code, m.ip, cl + cr + [Parsing.OperatorCode(op.kind).value]) &&
           At(constants, base, kl + kr) && |Parsing.Consts(e)| == |kl| + |kr| by {
      BinParts(e, l, op, r, base);
    }
    AtSplit(code, m.ip, cl + cr, [Parsing.OperatorCode(op.kind).value]);
    AtSplit(code, m.ip, cl, cr);
    AtSplit(constants, base, kl, kr);
  }

  /** The second half of a binary expression's code: the right operand, then the operator. */
  lemma {:induction false} ExecRight(code: seq<CodeByte>, constants: seq<Value>, m: Machine,
                                     l: Parsing.Expr, op: Scanners.Token, r: Parsing.Expr, e: Parsing.Expr, base: nat)
    requires e == Parsing.Bin(l, op, r) && Parsing.WellFormed(e) && Closed(constants, m)
    requires At(code, m.ip + |Parsing.Code(l, base)|, Parsing.Code(r, base + |Parsing.Consts(l)|))
    requires At(code, m.ip + |Parsing.Code(l, base) + Parsing.Code(r, base + |Parsing.Consts(l)|)|,
                [Parsing.OperatorCode(op.kind).value])
    requires At(constants, base + |Parsing.Consts(l)|, Parsing.Consts(r))
    requires base + |Parsing.Consts(e)| <= 16777216
    ensures Exec(code, constants, Target(m, l, base)) == Exec(code, constants, Target(m, e, base))
    decreases e, 0
  {
    BinParts(e, l, op, r, base);
    var m1 := Target(m, l, base);
    var m2 := Target(m1, r, base + |Parsing.Consts(l)|);
    var t := Target(m, e, base);
    BinTargets(m, m1, m2, t, e, l, op, r, base);
    ClosedPush(constants, m, m1, Val(l));
    ExecTree(code, constants, m1, r, base + |Parsing.Consts(l)|);
    ClosedPush(constants, m1, m2, Val(r));
    OperatorStep(code, constants, m2, m.stack, op.kind, Val(l), Val(r), t);
  }

  lemma BinParts(e: Parsing.Expr, l: Parsing.Expr, op: Scanners.Token, r: Parsing.Expr, base: nat)
    requires e == Parsing.Bin(l, op, r) && Parsing.WellFormed(e)
    ensures Parsing.WellFormed(l) && Parsing.WellFormed(r) && Parsing.Arithmetic(op.kind)
    ensures Parsing.Consts(e) == Parsing.Consts(l) + Parsing.Consts(r)
    ensures Parsing.Code(e, base) ==
            Parsing.Code(l, base) + Parsing.Code(r, base + |Parsing.Consts(l)|) + [Parsing.OperatorCode(op.kind).value]
  {
  }

  lemma BinTargets(m: Machine, m1: Machine, m2: Machine, t: Machine,
                   e: Parsing.Expr, l: Parsing.Expr, op: Scanners.Token, r: Parsing.Expr, base: nat)
    requires e == Parsing.Bin(l, op, r) && Parsing.Arithmetic(op.kind)
    requires m1 == Target(m, l, base) && m2 == Target(m1, r, base + |Parsing.Consts(l)|) && t == Target(m, e, base)
    ensures m1.ip == m.ip + |Parsing.Code(l, base)|
    ensures m2.ip == m.ip + |Parsing.Code(l, base) + Parsing.Code(r, base + |Parsing.Consts(l)|)|
    ensures m1.stack == m.stack + [Number(Val(l))] && m2.stack == m1.stack + [Number(Val(r))]
    ensures m2.stack == m.stack + [Number(Val(l)), Number(Val(r))]
    ensures t.ip == m2.ip + 1 && t.stack == m.stack + [Number(Operate(op.kind, Val(l), Val(r)))]
    ensures m1.globals == m.globals && m1.texts == m.texts && m2.globals == m1.globals && m2.texts == m1.texts
    ensures t.globals == m2.globals && t.texts == m2.texts
  {
  }

  /**
   * The code of an arithmetic expression followed by Return, with its own
   * constants as the pool, runs from the first byte to Success with the
   * expression's value pushed on the stack it started with.
   */
  lemma RunsCompiledTree(e: Parsing.Expr, stack: seq<Value>, texts: map<LuxString, StringData>)
    requires Parsing.WellFormed(e) && |Parsing.Consts(e)| <= 16777216
    requires HeapOk(texts) && AllRefer(texts, stack)
    ensures var code := Parsing.Code(e, 0) + [OpReturn];
      Exec(code, Parsing.Consts(e), Machine(0, stack, map[], texts)) ==
      Finished(Success, Machine(|code|, stack + [Number(Val(e))], map[], texts))
  {
    var m := Machine(0, stack, map[], texts);
    WholeProgram(e, m);
    ExecTree(Parsing.Code(e, 0) + [OpReturn], Parsing.Consts(e), m, e, 0);
    ClosedPush(Parsing.Consts(e), m, Target(m, e, 0), Val(e));
    ReturnStep(Parsing.Code(e, 0) + [OpReturn], Parsing.Consts(e), Target(m, e, 0));
  }

  /**
   * interpret on a text that scans to the tokens of a well-formed arithmetic
   * expression: it compiles without error, and the chunk runs from its first
   * byte to Success with the expression's value pushed.
   */
  lemma InterpretsTree(text: string, e: Parsing.Expr, eof: Scanners.Token, stack: seq<Value>,
                       texts: map<LuxString, StringData>)
    requires Scanners.CString(text) && Scanners.Tokens(text, 0, 1) == Parsing.Toks(e) + [eof]
    requires Parsing.WellFormed(e) && eof.kind == Scanners.TokenType.EndOfFile && |Parsing.Consts(e)| <= 16777216
    requires HeapOk(texts) && AllRefer(texts, stack)
    ensures var q := Parsing.CompileText(Unset, Unset, text, [], [], []);
      !q.hadError &&
      Exec(q.code, q.constants, Machine(0, stack, map[], texts)) ==
      Finished(Success, Machine(|q.code|, stack + [Number(Val(e))], map[], texts))
  {
    Parsing.CompilesTree(Unset, Unset, e, eof, [], [], []);
    var q := Parsing.CompileText(Unset, Unset, text, [], [], []);
    assert q == Parsing.CompileTokens(Unset, Unset, Parsing.Toks(e) + [eof], [], [], []);
    assert [] + Parsing.Code(e, 0) == Parsing.Code(e, 0);
    assert [] + Parsing.Consts(e) == Parsing.Consts(e);
    assert q.code == Parsing.Code(e, 0) + [OpReturn];
    assert q.constants == Parsing.Consts(e);
    RunsCompiledTree(e, stack, texts);
  }

  /** The code of e followed by Return, and its constants, seen from the first byte and the first index. */
  lemma WholeProgram(e: Parsing.Expr, m: Machine)
    requires HeapOk(m.texts) && AllRefer(m.texts, m.stack) && m.ip == 0 && m.globals == map[]
    ensures Closed(Parsing.Consts(e), m)
    ensures At(Parsing.Code(e, 0) + [OpReturn], m.ip, Parsing.Code(e, 0)) && At(Parsing.Consts(e), 0, Parsing.Consts(e))
    ensures At(Parsing.Code(e, 0) + [OpReturn], Target(m, e, 0).ip, [OpReturn])
    ensures Target(m, e, 0).ip + 1 == |Parsing.Code(e, 0) + [OpReturn]|
    ensures Target(m, e, 0) == Machine(|Parsing.Code(e, 0)|, m.stack + [Number(Val(e))], map[], m.texts)
  {
    ConstsAreNumbers(e);
    var code := Parsing.Code(e, 0) + [OpReturn];
    assert code[0..|Parsing.Code(e, 0)|] == Parsing.Code(e, 0);
    assert code[|Parsing.Code(e, 0)|..|code|] == [OpReturn];
    assert Parsing.Consts(e)[0..|Parsing.Consts(e)|] == Parsing.Consts(e);
  }

  /** Return stops the run with Success, just past itself. */
  lemma ReturnStep(code: seq<CodeByte>, constants: seq<Value>, m: Machine)
    requires Closed(constants, m) && At(code, m.ip, [OpReturn])
    ensures Exec(code, constants, m) == Finished(Success, m.(ip := m.ip + 1))
  {
    assert code[m.ip] == code[m.ip..m.ip + 1][0];
  }

  // ---------------------------------------------------------------------------
  // What Not and '+' on strings compute
  // ---------------------------------------------------------------------------

  /**
   * Not replaces the top of the stack by its logical negation: a boolean is
   * flipped, nil becomes true, and every number and object becomes false.
   */
  lemma NotIsNegation(code: seq<CodeByte>, constants: seq<Value>, m: Machine)
    requires CanStep(code, constants, m) && code[m.ip] == OpNot
    ensures Step(code, constants, m).Next?
    ensures var n := Step(code, constants, m).m;
      |n.stack| == |m.stack| && n.stack[..|n.stack| - 1] == m.stack[..|m.stack| - 1] &&
      n.stack[|n.stack| - 1] == Bool(!Truthy(StackAt(m, 0))) &&
      (StackAt(m, 0).Bool? ==> n.stack[|n.stack| - 1] == Bool(!StackAt(m, 0).boolean)) &&
      n.globals == m.globals && n.texts == m.texts
  {
    var n := m.(ip := m.ip + 1);
    assert StackAt(n, 0) == StackAt(m, 0);
  }

  /**
   * '+' on two strings pops the right one and leaves the left String object on
   * the stack, now holding the left text followed by the right text; every
   * other String keeps its text.
   */
  lemma AddConcatenates(code: seq<CodeByte>, constants: seq<Value>, m: Machine)
    requires CanStep(code, constants, m) && code[m.ip] == OpAdd
    requires StackAt(m, 0).IsString() && StackAt(m, 1).IsString()
    requires m.texts[StackAt(m, 0).obj].Terminated() && m.texts[StackAt(m, 1).obj].Terminated()
    ensures Step(code, constants, m).Next?
    ensures var n := Step(code, constants, m).m; var a, b := StackAt(m, 1).obj, StackAt(m, 0).obj;
      n.stack == m.stack[..|m.stack| - 1] && n.globals == m.globals &&
      n.texts.Keys == m.texts.Keys && n.texts[a].Terminated() &&
      n.texts[a].Text() == m.texts[a].Text() + m.texts[b].Text() &&
      forall o :: o in m.texts && o != a ==> n.texts[o] == m.texts[o]
  {
    AddStringsStep(code, constants, m);
    ConcatenatedText(m.texts[StackAt(m, 1).obj], m.texts[StackAt(m, 0).obj]);
  }

  lemma AddStringsStep(code: seq<CodeByte>, constants: seq<Value>, m: Machine)
    requires CanStep(code, constants, m) && code[m.ip] == OpAdd
    requires StackAt(m, 0).IsString() && StackAt(m, 1).IsString()
    ensures Step(code, constants, m) ==
            Next(m.(ip := m.ip + 1, stack := m.stack[..|m.stack| - 1],
                    texts := m.texts[StackAt(m, 1).obj := Concatenated(m.texts[StackAt(m, 1).obj], m.texts[StackAt(m, 0).obj])]))
  {
    var n := m.(ip := m.ip + 1);
    assert StackAt(n, 0) == StackAt(m, 0) && StackAt(n, 1) == StackAt(m, 1);
  }

  // ---------------------------------------------------------------------------
  // The loop as written
  // ---------------------------------------------------------------------------

  /**
   * What the loop needs as written: ConstantLong and DefGlobalLong have no case
   * in the switch, so they need nothing but their opcode byte.
   */
  predicate CanStepAsWritten(code: seq<CodeByte>, constants: seq<Value>, m: Machine)
  {
    Closed(constants, m) && m.ip < |code| &&
    (code[m.ip] == OpConstantLong || code[m.ip] == OpDefGlobalLong || CanStep(code, constants, m))
  }

  /**
   * One pass of the loop as written. ConstantLong and DefGlobalLong fall
   * through the switch: only the opcode byte is read, and the operand bytes
   * are then taken for opcodes. Not assigns the truthiness of the top to its
   * boolean payload and leaves the tag alone: nil stays nil, a boolean keeps
   * its own value (its truthiness), and on a number or an object the write
   * lands in the wrong member of the union (None: undefined from then on).
   */
  function StepAsWritten(code: seq<CodeByte>, constants: seq<Value>, m: Machine): (o: Option<Outcome>)
    requires CanStepAsWritten(code, constants, m)
    ensures o.Some? ==> m.ip < o.value.m.ip <= |code|
  {
    var op := code[m.ip];
    if op == OpConstantLong || op == OpDefGlobalLong then Some(Next(m.(ip := m.ip + 1)))
    else if op == OpNot then
      if StackAt(m, 0).Nil? || StackAt(m, 0).Bool? then Some(Next(m.(ip := m.ip + 1))) else None
    else Some(Step(code, constants, m))
  }

  /** run as written: a run that ends stops inside the code, past where it started. */
  function ExecAsWritten(code: seq<CodeByte>, constants: seq<Value>, m: Machine): (r: Run)
    ensures r.Finished? ==> m.ip < r.final.ip <= |code|
    decreases |code| - m.ip
  {
    if !CanStepAsWritten(code, constants, m) then Undefined
    else match StepAsWritten(code, constants, m)
      case None => Undefined
      case Some(Halt(r, last)) => Finished(r, last)
      case Some(Next(n)) => ExecAsWritten(code, constants, n)
  }

  /**
   * Away from the two defects the loop as written takes the corrected step:
   * every opcode but Not, ConstantLong and DefGlobalLong has the same case.
   * On a boolean, Not as written and Not as negation leave different states.
   */
  lemma StepAsWrittenAgrees(code: seq<CodeByte>, constants: seq<Value>, m: Machine)
    requires CanStep(code, constants, m)
    ensures CanStepAsWritten(code, constants, m)
    ensures code[m.ip] != OpNot && code[m.ip] != OpConstantLong && code[m.ip] != OpDefGlobalLong ==>
            StepAsWritten(code, constants, m) == Some(Step(code, constants, m))
    ensures code[m.ip] == OpNot && StackAt(m, 0).Bool? ==>
            StepAsWritten(code, constants, m) != Some(Step(code, constants, m))
  {
    if code[m.ip] == OpNot && StackAt(m, 0).Bool? {
      NotIsNegation(code, constants, m);
      var n := Step(code, constants, m).m;
      assert n.stack[|n.stack| - 1] != StackAt(m, 0);
    }
  }

  /**
   * The instructions of s, read from its first byte with each opcode's operand
   * bytes skipped as the loop skips them, up to the first Return or else exactly
   * to the end of s: none of them is Not, ConstantLong or DefGlobalLong. Operand
   * bytes, and whatever follows a Return, may hold any value.
   */
  predicate Clean(s: seq<CodeByte>)
    decreases |s|
  {
    s == [] || s[0] == OpReturn ||
    (s[0] != OpNot && s[0] != OpConstantLong && s[0] != OpDefGlobalLong &&
     1 + OperandBytes(s[0]) <= |s| && Clean(s[1 + OperandBytes(s[0])..]))
  }

  lemma {:induction false} CleanAppend(a: seq<CodeByte>, b: seq<CodeByte>)
    requires Clean(a) && Clean(b)
    ensures Clean(a + b)
    decreases |a|
  {
    if a != [] && a[0] != OpReturn {
      var k := 1 + OperandBytes(a[0]);
      assert (a + b)[0] == a[0];
      assert (a + b)[k..] == a[k..] + b;
      CleanAppend(a[k..], b);
    } else if a == [] {
      assert a + b == b;
    } else {
      assert (a + b)[0] == a[0];
    }
  }

  lemma CleanConstant(index: CodeByte)
    ensures Clean([OpConstant, index])
  {
    assert [OpConstant, index][2..] == [];
  }

  lemma CleanOperator(op: CodeByte)
    requires OpNegate <= op <= OpDivide
    ensures Clean([op])
  {
    assert [op][1..] == [];
  }

  /** The code of an expression with at most 256 constants (from base on) is Clean: it has no Not and no long opcode. */
  lemma {:induction false} CompiledCodeIsClean(e: Parsing.Expr, base: nat)
    requires Parsing.WellFormed(e) && base + |Parsing.Consts(e)| <= 256
    ensures Clean(Parsing.Code(e, base))
    decreases e, 1
  {
    match e
    case Num(_) =>
      assert Parsing.Code(e, base) == [OpConstant, base];
      CleanConstant(base);
    case Neg(_, x) => CleanNeg(e, x, base);
    case Bin(l, op, r) => CleanBin(e, l, op, r, base);
    case Group(_, x, _) =>
      assert Parsing.WellFormed(x) && Parsing.Consts(x) == Parsing.Consts(e);
      assert Parsing.Code(e, base) == Parsing.Code(x, base);
      CompiledCodeIsClean(x, base);
  }

  lemma {:induction false} CleanNeg(e: Parsing.Expr, x: Parsing.Expr, base: nat)
    requires e.Neg? && e.operand == x && Parsing.WellFormed(e) && base + |Parsing.Consts(e)| <= 256
    ensures Clean(Parsing.Code(e, base))
    decreases e, 0
  {
    assert Parsing.WellFormed(x) && Parsing.Consts(x) == Parsing.Consts(e);
    assert Parsing.Code(e, base) == Parsing.Code(x, base) + [OpNegate];
    CompiledCodeIsClean(x, base);
    CleanOperator(OpNegate);
    CleanAppend(Parsing.Code(x, base), [OpNegate]);
  }

  lemma {:induction false} CleanBin(e: Parsing.Expr, l: Parsing.Expr, op: Scanners.Token, r: Parsing.Expr, base: nat)
    requires e == Parsing.Bin(l, op, r) && Parsing.WellFormed(e) && base + |Parsing.Consts(e)| <= 256
    ensures Clean(Parsing.Code(e, base))
    decreases e, 0
  {
    var cl, cr := Parsing.Code(l, base), Parsing.Code(r, base + |Parsing.Consts(l)|);
    var o := Parsing.OperatorCode(op.kind).value;
    assert Parsing.WellFormed(l) && Parsing.WellFormed(r) && Parsing.Code(e, base) == cl + cr + [o] &&
           base + |Parsing.Consts(l)| + |Parsing.Consts(r)| <= 256 && OpAdd <= o <= OpDivide by {
      BinParts(e, l, op, r, base);
    }
    CompiledCodeIsClean(l, base);
    CompiledCodeIsClean(r, base + |Parsing.Consts(l)|);
    CleanJoin(cl, cr, o);
  }

  lemma CleanJoin(a: seq<CodeByte>, b: seq<CodeByte>, op: CodeByte)
    requires Clean(a) && Clean(b) && OpNegate <= op <= OpDivide
    ensures Clean(a + b + [op])
  {
    CleanOperator(op);
    CleanAppend(a, b);
    CleanAppend(a + b, [op]);
  }

  /** Code whose instructions from the ip on are none of Not, ConstantLong and DefGlobalLong runs as written exactly as Exec says. */
  lemma {:induction false} ExecAsWrittenAgrees(code: seq<CodeByte>, constants: seq<Value>, m: Machine)
    requires m.ip >= |code| || Clean(code[m.ip..])
    ensures ExecAsWritten(code, constants, m) == Exec(code, constants, m)
    decreases |code| - m.ip
  {
    if m.ip < |code| {
      var s := code[m.ip..];
      assert s[0] == code[m.ip];
      if CanStep(code, constants, m) {
        StepAsWrittenAgrees(code, constants, m);
        match Step(code, constants, m)
        case Halt(r, last) =>
        case Next(n) =>
          if s[0] == OpReturn {
            assert false;
          }
          assert n.ip < |code| ==> code[n.ip..] == s[1 + OperandBytes(s[0])..];
          ExecAsWrittenAgrees(code, constants, n);
      }
    }
  }

  /** Compiled arithmetic with at most 256 constants runs to the same Success under the loop as written. */
  lemma RunsCompiledTreeAsWritten(e: Parsing.Expr, stack: seq<Value>, texts: map<LuxString, StringData>)
    requires Parsing.WellFormed(e) && |Parsing.Consts(e)| <= 256
    requires HeapOk(texts) && AllRefer(texts, stack)
    ensures var code := Parsing.Code(e, 0) + [OpReturn];
      ExecAsWritten(code, Parsing.Consts(e), Machine(0, stack, map[], texts)) ==
      Finished(Success, Machine(|code|, stack + [Number(Val(e))], map[], texts))
  {
    var code := Parsing.Code(e, 0) + [OpReturn];
    CompiledCodeIsClean(e, 0);
    assert [OpReturn][1..] == [];
    assert Clean([OpReturn]);
    CleanAppend(Parsing.Code(e, 0), [OpReturn]);
    assert code[0..] == code;
    ExecAsWrittenAgrees(code, Parsing.Consts(e), Machine(0, stack, map[], texts));
    RunsCompiledTree(e, stack, texts);
  }

  /** "true !" as written: Not leaves true on the stack. */
  lemma NotAsWrittenKeepsTrue()
    ensures ExecAsWritten([OpTrue, OpNot, OpReturn], [], Machine(0, [], map[], map[])) ==
            Finished(Success, Machine(3, [Bool(true)], map[], map[]))
  {
    var code: seq<CodeByte> := [OpTrue, OpNot, OpReturn];
    var m0 := Machine(0, [], map[], map[]);
    var m1 := Machine(1, [Bool(true)], map[], map[]);
    assert code[0] == OpTrue && CanStep(code, [], m0);
    assert m0.stack + [Bool(true)] == [Bool(true)];
    assert Step(code, [], m0) == Next(m1);
    assert StepAsWritten(code, [], m0) == Some(Next(m1));
    assert StepAsWritten(code, [], m1) == Some(Next(m1.(ip := 2)));
    assert StepAsWritten(code, [], m1.(ip := 2)) == Some(Halt(Success, m1.(ip := 3)));
    assert ExecAsWritten(code, [], m1.(ip := 2)) == Finished(Success, m1.(ip := 3));
    assert ExecAsWritten(code, [], m1) == Finished(Success, m1.(ip := 3));
  }

  /** "true !" with Not as the negation of truthiness: false is left on the stack. */
  lemma NotNegatesTrue()
    ensures Exec([OpTrue, OpNot, OpReturn], [], Machine(0, [], map[], map[])) ==
            Finished(Success, Machine(3, [Bool(false)], map[], map[]))
  {
    var code: seq<CodeByte> := [OpTrue, OpNot, OpReturn];
    var m0 := Machine(0, [], map[], map[]);
    var m1 := Machine(1, [Bool(true)], map[], map[]);
    var m2 := Machine(2, [Bool(false)], map[], map[]);
    assert code[0] == OpTrue && CanStep(code, [], m0);
    assert m0.stack + [Bool(true)] == [Bool(true)];
    assert Step(code, [], m0) == Next(m1);
    assert Step(code, [], m1) == Next(m2);
    assert Step(code, [], m2) == Halt(Success, m2.(ip := 3));
    assert Exec(code, [], m2) == Finished(Success, m2.(ip := 3));
    assert Exec(code, [], m1) == Finished(Success, m2.(ip := 3));
  }

  /**
   * A constant that needs the long form, as written. Index 283 = 27 + 256 * 1
   * is chosen so that the first operand byte, 27, is the Return opcode: the
   * operand bytes are run as instructions, so the run stops at once with
   * nothing pushed. Read as an operand, the three
   * bytes push constants[283] before the Return.
   */
  lemma LongConstantAsWritten(constants: seq<Value>)
    requires |constants| > 283 && AllRefer(map[], constants)
    ensures ExecAsWritten([OpConstantLong, 27, 1, 0, OpReturn], constants, Machine(0, [], map[], map[])) ==
            Finished(Success, Machine(2, [], map[], map[]))
    ensures Exec([OpConstantLong, 27, 1, 0, OpReturn], constants, Machine(0, [], map[], map[])) ==
            Finished(Success, Machine(5, [constants[283]], map[], map[]))
  {
    var code: seq<CodeByte> := [OpConstantLong, 27, 1, 0, OpReturn];
    var m0 := Machine(0, [], map[], map[]);
    assert StepAsWritten(code, constants, m0) == Some(Next(m0.(ip := 1)));
    assert StepAsWritten(code, constants, m0.(ip := 1)) == Some(Halt(Success, m0.(ip := 2)));
    assert OperandIndex(code, 0) == 283;
    var m1 := Machine(4, [constants[283]], map[], map[]);
    assert AllRefer(map[], m1.stack);
    assert Step(code, constants, m0) == Next(m1);
    assert Step(code, constants, m1) == Halt(Success, m1.(ip := 5));
    assert Exec(code, constants, m1) == Finished(Success, m1.(ip := 5));
  }

  // ---------------------------------------------------------------------------
  // The VM object
  // ---------------------------------------------------------------------------

  /** The token a new compiler holds before it reads any text. */
  const Unset := Scanners.Token(Scanners.TokenType.Error, [], 0)

  /** The start of interpret: a new compiler compiles the text into a new chunk, and answers whether no error was reported. */
  method CompileNew(text: string) returns (ok: bool, target: Chunk)
    requires Scanners.CString(text)
    ensures fresh(target)
    ensures var q := Parsing.CompileText(Unset, Unset, text, [], [], []);
      target.code == q.code && target.constants == q.constants && ok == !q.hadError
  {
    var compiler := new Compilers.Compiler();
    target := new Chunk();
    ok := compiler.Compile(text, target);
  }

  /** The text every String object of a set holds now. */
  ghost function TextsOf(heap: set<LuxString>): map<LuxString, StringData>
    reads heap
  {
    map o | o in heap :: o.Data()
  }

  /** Value::operator== on the objects themselves agrees with EqualIn on their texts. */
  lemma ValuesEqualIsEqualIn(heap: set<LuxString>, a: Value, b: Value)
    requires Refers(TextsOf(heap), a) && Refers(TextsOf(heap), b)
    ensures ValuesEqual(a, b) <==> EqualIn(TextsOf(heap), a, b)
  {
  }

  lemma EqualityOutcome(m: Machine, negated: bool, equal: bool)
    requires |m.stack| >= 2 && AllRefer(m.texts, m.stack)
    requires equal == (EqualIn(m.texts, StackAt(m, 1), StackAt(m, 0)) != negated)
    ensures Equality(m, negated) == Next(m.(stack := m.stack[..|m.stack| - 2] + [Bool(equal)]))
  {
  }

  lemma DefineGlobalOutcome(m: Machine, name: StringData)
    requires |m.stack| >= 1
    ensures name in m.globals ==> DefineGlobal(m, name) == Halt(RuntimeError, Machine(m.ip, [], m.globals, m.texts))
    ensures name !in m.globals ==>
      DefineGlobal(m, name) == Next(Machine(m.ip, m.stack[..|m.stack| - 1], m.globals[name := m.stack[|m.stack| - 1]], m.texts))
  {
  }

  lemma AddStringsOutcome(m: Machine)
    requires |m.stack| >= 2 && HeapOk(m.texts) && AllRefer(m.texts, m.stack)
    requires StackAt(m, 0).IsString() && StackAt(m, 1).IsString()
    ensures Add(m) == Next(m.(stack := m.stack[..|m.stack| - 1],
                              texts := m.texts[StackAt(m, 1).obj := Concatenated(m.texts[StackAt(m, 1).obj], m.texts[StackAt(m, 0).obj])]))
  {
  }

  lemma AddFails(m: Machine)
    requires |m.stack| >= 2 && HeapOk(m.texts) && AllRefer(m.texts, m.stack)
    requires !(StackAt(m, 0).IsString() && StackAt(m, 1).IsString())
    requires !(StackAt(m, 0).Number? && StackAt(m, 1).Number?)
    ensures Add(m) == Fail(m)
  {
  }

  lemma BinaryNumberOutcome(m: Machine, op: CodeByte)
    requires |m.stack| >= 2 && OpSubtract <= op <= OpDivide
    ensures !StackAt(m, 0).Number? || !StackAt(m, 1).Number? ==> BinaryNumber(m, op) == Fail(m)
    ensures StackAt(m, 0).Number? && StackAt(m, 1).Number? ==>
      BinaryNumber(m, op) ==
      Next(m.(stack := m.stack[..|m.stack| - 1][|m.stack| - 2 := Number(Arith(op, StackAt(m, 1).number, StackAt(m, 0).number))]))
  {
  }

  lemma BinaryBoolOutcome(m: Machine, op: CodeByte)
    requires |m.stack| >= 2 && OpLess <= op <= OpGreaterEqual
    ensures !StackAt(m, 0).Number? || !StackAt(m, 1).Number? ==> BinaryBool(m, op) == Fail(m)
    ensures StackAt(m, 0).Number? && StackAt(m, 1).Number? ==>
      BinaryBool(m, op) ==
      Next(m.(stack := m.stack[..|m.stack| - 2] + [Bool(Compare(op, StackAt(m, 1).number, StackAt(m, 0).number))]))
  {
  }

  lemma AddNumbersOutcome(m: Machine)
    requires |m.stack| >= 2 && HeapOk(m.texts) && AllRefer(m.texts, m.stack)
    requires StackAt(m, 0).Number? && StackAt(m, 1).Number?
    ensures Add(m) == Next(m.(stack := m.stack[..|m.stack| - 2] + [Number(StackAt(m, 1).number + StackAt(m, 0).number)]))
  {
    var rest := m.stack[..|m.stack| - 1];
    assert rest[|rest| - 1 := Number(StackAt(m, 1).number + StackAt(m, 0).number)] ==
           m.stack[..|m.stack| - 2] + [Number(StackAt(m, 1).number + StackAt(m, 0).number)];
  }

  lemma ConstantOutcome(code: seq<CodeByte>, constants: seq<Value>, m: Machine)
    requires CanStep(code, constants, m) && (code[m.ip] == OpConstant || code[m.ip] == OpConstantLong)
    ensures Step(code, constants, m) ==
            Next(m.(ip := m.ip + 1 + OperandBytes(code[m.ip]), stack := m.stack + [constants[OperandIndex(code, m.ip)]]))
  {
  }

  lemma DefineOutcome(code: seq<CodeByte>, constants: seq<Value>, m: Machine)
    requires CanStep(code, constants, m) && (code[m.ip] == OpDefGlobal || code[m.ip] == OpDefGlobalLong)
    ensures constants[OperandIndex(code, m.ip)].obj in m.texts
    ensures Step(code, constants, m) ==
            DefineGlobal(m.(ip := m.ip + 1 + OperandBytes(code[m.ip])), m.texts[constants[OperandIndex(code, m.ip)].obj])
  {
  }

  /** The name a DefGlobal instruction defines is a String of the heap, and its text is the name bound. */
  lemma DefineNamed(code: seq<CodeByte>, constants: seq<Value>, m: Machine, heap: set<LuxString>)
    requires CanStep(code, constants, m) && (code[m.ip] == OpDefGlobal || code[m.ip] == OpDefGlobalLong)
    requires m.texts == TextsOf(heap)
    ensures constants[OperandIndex(code, m.ip)].obj in heap
    ensures GoodText(constants[OperandIndex(code, m.ip)].obj.Data())
    ensures Step(code, constants, m) ==
            DefineGlobal(m.(ip := m.ip + 1 + OperandBytes(code[m.ip])), constants[OperandIndex(code, m.ip)].obj.Data())
  {
    DefineOutcome(code, constants, m);
  }

  /** Only the String written to has a new text. */
  lemma TextsAfterWrite(heap: set<LuxString>, before: map<LuxString, StringData>, written: LuxString)
    requires written in heap && before.Keys == heap
    requires forall o :: o in heap && o != written ==> o.Data() == before[o]
    ensures TextsOf(heap) == before[written := written.Data()]
  {
  }

  /** An outcome and the state a handler left: halted exactly when the outcome halts, with its result. */
  ghost predicate Reaches(o: Outcome, halt: bool, result: InterpretResult, s: Machine)
  {
    s == o.m && (halt <==> o.Halt?) && (halt ==> result == o.result)
  }

  /**
   * class VM: the chunk being run, the instruction pointer (an offset into the
   * chunk's code), the value stack and the globals table. heap names the
   * String objects the values may refer to.
   */
  class VM {
    var chunk: Chunk
    var ip: nat
    var stack: seq<Value>
    const globals: HashTables.HashTable
    ghost var heap: set<LuxString>

    ghost predicate Valid()
      reads this, globals, globals.Repr
    {
      globals.Valid()
    }

    /** The registers, the globals' contents and the heap's texts, as a machine state. */
    ghost function State(): Machine
      reads this, heap, globals, globals.Repr
      requires globals.Valid()
    {
      Machine(ip, stack, globals.Contents(), TextsOf(heap))
    }

    /** A VM with an empty chunk, an empty stack and no globals. */
    constructor ()
      ensures Valid() && stack == [] && heap == {} && State() == Machine(0, [], map[], map[])
      ensures fresh(globals.Repr) && fresh(chunk)
    {
      chunk := new Chunk();
      ip := 0;
      stack := [];
      globals := new HashTables.HashTable();
      heap := {};
    }

    /** push. */
    method Push(value: Value)
      modifies this`stack
      ensures stack == old(stack) + [value]
    {
      stack := stack + [value];
    }

    /** pop: returns the top value and removes it. */
    method Pop() returns (value: Value)
      requires |stack| >= 1
      modifies this`stack
      ensures value == old(stack)[|old(stack)| - 1] && stack == old(stack)[..|old(stack)| - 1]
    {
      value := stack[|stack| - 1];
      stack := stack[..|stack| - 1];
    }

    /** peek: the value distance places below the top. */
    method Peek(distance: nat) returns (value: Value)
      requires distance < |stack|
      ensures value == stack[|stack| - 1 - distance]
    {
      value := stack[|stack| - 1 - distance];
    }

    /** A write through the reference peek() returns: the top value is replaced. */
    method SetTop(value: Value)
      requires |stack| >= 1
      modifies this`stack
      ensures stack == old(stack)[|old(stack)| - 1 := value]
    {
      stack := stack[|stack| - 1 := value];
    }

    /** READ_BYTE: the byte at the instruction pointer, which moves past it. */
    method ReadByte() returns (byte: CodeByte)
      requires ip < |chunk.code|
      modifies this`ip
      ensures byte == chunk.code[old(ip)] && ip == old(ip) + 1
    {
      byte := chunk.code[ip];
      ip := ip + 1;
    }

    /** READ_CONSTANT: the constant a one-byte operand names. */
    method ReadConstant() returns (value: Value)
      requires ip < |chunk.code| && chunk.code[ip] < |chunk.constants|
      modifies this`ip
      ensures value == chunk.constants[chunk.code[old(ip)]] && ip == old(ip) + 1
    {
      var index := ReadByte();
      value := chunk.constants[index];
    }

    /** The constant a three-byte little-endian operand names. */
    method ReadConstantLong() returns (value: Value)
      requires ip + 3 <= |chunk.code| && 1 <= ip
      requires DecodeIndex(chunk.code[ip - 1..ip + 3]) < |chunk.constants|
      modifies this`ip
      ensures value == chunk.constants[DecodeIndex(chunk.code[old(ip) - 1..old(ip) + 3])] && ip == old(ip) + 3
    {
      ghost var operand := chunk.code[ip - 1..ip + 3];
      var b0 := ReadByte();
      var b1 := ReadByte();
      var b2 := ReadByte();
      assert operand[1] == b0 && operand[2] == b1 && operand[3] == b2;
      value := chunk.constants[b0 as int + 256 * b1 as int + 65536 * b2 as int];
    }

    /** The operand of a Constant or DefGlobal instruction, short or Long: the constant it names. */
    method ReadOperand(ghost m: Machine, opcode: CodeByte) returns (value: Value)
      requires Valid() && CanStep(chunk.code, chunk.constants, m) && opcode == chunk.code[m.ip]
      requires OperandBytes(opcode) > 0
      requires State() == m.(ip := m.ip + 1)
      modifies this`ip
      ensures Valid() && State() == m.(ip := m.ip + 1 + OperandBytes(opcode))
      ensures value == chunk.constants[OperandIndex(chunk.code, m.ip)]
    {
      if OperandBytes(opcode) == 1 {
        value := ReadConstant();
      } else {
        value := ReadConstantLong();
      }
    }

    /**
     * runtimeError: the message and the line of the last byte read are
     * printed (output, outside the model), and the stack is cleared.
     */
    method ReportRuntimeError()
      requires Valid()
      modifies this`stack
      ensures Valid() && State() == old(State()).(stack := [])
    {
      stack := [];
    }

    // The cases of the switch, each on the state after its operand bytes.

    /** case DefGlobal: a name already bound is an error; otherwise the popped value is bound to a copy of the name. */
    method DefineGlobalCase(name: LuxString) returns (failed: bool)
      requires Valid() && |stack| >= 1 && name in heap && GoodText(name.Data())
      modifies this`stack, globals.Repr
      ensures Valid() && fresh(globals.Repr - old(globals.Repr))
      ensures chunk == old(chunk) && unchanged(chunk)
      ensures Reaches(DefineGlobal(old(State()), old(name.Data())), failed, RuntimeError, State())
    {
      DefineGlobalOutcome(State(), name.Data());
      var found := globals.Contains(name.Data());
      if found {
        ReportRuntimeError();
        return true;
      }
      BindGlobal(name.Data());
      return false;
    }

    /** The binding of case DefGlobal: the value is popped and emplaced in the table under the name. */
    method BindGlobal(name: StringData)
      requires Valid() && |stack| >= 1 && !name.IsNull()
      modifies this`stack, globals.Repr
      ensures Valid() && fresh(globals.Repr - old(globals.Repr))
      ensures chunk == old(chunk) && unchanged(chunk)
      ensures State() == Machine(old(ip), old(stack)[..|old(stack)| - 1],
                                 old(globals.Contents())[name := old(stack)[|old(stack)| - 1]], old(TextsOf(heap)))
    {
      var value := Pop();
      globals.Insert(name, value);
    }

    /** case Negate: the top must be a number, which is negated where it is. */
    method NegateCase() returns (failed: bool)
      requires Valid() && |stack| >= 1
      modifies this`stack
      ensures Valid() && Reaches(Negate(old(State())), failed, RuntimeError, State())
    {
      var top := Peek(0);
      if !top.Number? {
        ReportRuntimeError();
        return true;
      }
      SetTop(Number(-top.number));
      return false;
    }

    /**
     * case Add: two strings, and the right one is popped and appended to the
     * left String object; two numbers, and the right one is popped and added
     * into the left; anything else is an error.
     */
    method AddCase() returns (failed: bool)
      requires Valid() && |stack| >= 2
      requires HeapOk(TextsOf(heap)) && AllRefer(TextsOf(heap), stack)
      modifies this`stack, heap`size, heap`hash, heap`buffer
      ensures Valid() && Reaches(Add(old(State())), failed, RuntimeError, State())
    {
      var right := Peek(0);
      var left := Peek(1);
      if right.IsString() && left.IsString() {
        AddStrings();
        return false;
      } else if right.Number? && left.Number? {
        AddNumbers();
        return false;
      }
      AddFails(State());
      ReportRuntimeError();
      return true;
    }

    /** Case Add on two Strings: what Add gives for them. */
    method AddStrings()
      requires Valid() && |stack| >= 2 && stack[|stack| - 1].IsString() && stack[|stack| - 2].IsString()
      requires HeapOk(TextsOf(heap)) && AllRefer(TextsOf(heap), stack)
      modifies this`stack, heap`size, heap`hash, heap`buffer
      ensures Valid() && Reaches(Add(old(State())), false, RuntimeError, State())
    {
      AddStringsOutcome(State());
      ConcatenateStrings();
    }

    /** The number branch of case Add: the right number is popped and added into the left. */
    method AddNumbers()
      requires Valid() && |stack| >= 2 && stack[|stack| - 1].Number? && stack[|stack| - 2].Number?
      requires HeapOk(TextsOf(heap)) && AllRefer(TextsOf(heap), stack)
      modifies this`stack
      ensures Valid() && Reaches(Add(old(State())), false, RuntimeError, State())
    {
      AddNumbersOutcome(State());
      var b := Pop();
      var a := Peek(0);
      SetTop(Number(a.number + b.number));
    }

    /** The string branch of case Add: the right String is popped and appended to the left one, in place. */
    method ConcatenateStrings()
      requires Valid() && |stack| >= 2 && stack[|stack| - 1].IsString() && stack[|stack| - 2].IsString()
      requires HeapOk(TextsOf(heap)) && AllRefer(TextsOf(heap), stack)
      modifies this`stack, heap`size, heap`hash, heap`buffer
      ensures Valid()
      ensures State() == old(State()).(stack := old(stack)[..|old(stack)| - 1],
        texts := old(TextsOf(heap))[old(stack)[|old(stack)| - 2].obj :=
                   Concatenated(old(TextsOf(heap))[old(stack)[|old(stack)| - 2].obj], old(TextsOf(heap))[old(stack)[|old(stack)| - 1].obj])])
    {
      var b := Pop();
      var a := Peek(0);
      AppendText(a.obj, b.obj);
    }

    /** The String `a` gets `b`'s text appended in place; every other String keeps its text. */
    method AppendText(a: LuxString, b: LuxString)
      requires Valid() && a in heap && b in heap && HeapOk(TextsOf(heap))
      modifies heap`size, heap`hash, heap`buffer
      ensures Valid() && globals.Contents() == old(globals.Contents())
      ensures TextsOf(heap) == old(TextsOf(heap))[a := Concatenated(old(TextsOf(heap))[a], old(TextsOf(heap))[b])]
    {
      ghost var before := TextsOf(heap);
      assert GoodText(before[a]) && GoodText(before[b]);
      Objects.AsString(a).value.Append(Objects.AsString(b).value);
      TextsAfterWrite(heap, before, a);
    }

    /** BINARY_OP_N: two numbers, and the right one is popped and combined into the left. */
    method BinaryNumberCase(op: CodeByte) returns (failed: bool)
      requires Valid() && |stack| >= 2 && OpSubtract <= op <= OpDivide
      modifies this`stack
      ensures Valid() && Reaches(BinaryNumber(old(State()), op), failed, RuntimeError, State())
    {
      BinaryNumberOutcome(State(), op);
      var right := Peek(0);
      var left := Peek(1);
      if !right.Number? || !left.Number? {
        ReportRuntimeError();
        return true;
      }
      var b := Pop();
      var a := Peek(0);
      SetTop(Number(Arith(op, a.number, b.number)));
      return false;
    }

    /** case Not: the top is replaced by whether it is falsey. */
    method NotCase()
      requires Valid() && |stack| >= 1
      modifies this`stack
      ensures Valid() && Reaches(Not(old(State())), false, Success, State())
    {
      var top := Peek(0);
      SetTop(Bool(IsFalsey(top)));
    }

    /** case Equal and NotEqual: both operands are popped and the result of == or != pushed. */
    method EqualityCase(negated: bool)
      requires Valid() && |stack| >= 2 && AllRefer(TextsOf(heap), stack)
      modifies this`stack
      ensures Valid() && Reaches(Equality(old(State()), negated), false, Success, State())
    {
      ghost var m := State();
      var b := Pop();
      var a := Pop();
      ValuesEqualIsEqualIn(heap, a, b);
      var equal := if negated then ValuesNotEqual(a, b) else ValuesEqual(a, b);
      EqualityOutcome(m, negated, equal);
      Push(Bool(equal));
    }

    /** BINARY_OP_B: two numbers, both popped, and the comparison's boolean pushed. */
    method BinaryBoolCase(op: CodeByte) returns (failed: bool)
      requires Valid() && |stack| >= 2 && OpLess <= op <= OpGreaterEqual
      modifies this`stack
      ensures Valid() && Reaches(BinaryBool(old(State()), op), failed, RuntimeError, State())
    {
      BinaryBoolOutcome(State(), op);
      var right := Peek(0);
      var left := Peek(1);
      if !right.Number? || !left.Number? {
        ReportRuntimeError();
        return true;
      }
      var b := Pop();
      var a := Pop();
      Push(Bool(Compare(op, a.number, b.number)));
      return false;
    }

    /** case Print and Pop: the top is popped (and, for Print, printed). */
    method DropCase()
      requires Valid() && |stack| >= 1
      modifies this`stack
      ensures Valid() && Reaches(Drop(old(State())), false, Success, State())
    {
      var value := Pop();
    }
  

    /**
     * interpret: the text is compiled into a new chunk; a compile error is
     * answered without running anything, otherwise the VM runs the chunk from
     * its first byte with no globals, on the stack and heap it already has.
     */
    method Interpret(text: string) returns (result: InterpretResult)
      requires Valid() && Scanners.CString(text)
      requires var q := Parsing.CompileText(Unset, Unset, text, [], [], []);
        !q.hadError ==> Exec(q.code, q.constants, Machine(0, stack, map[], TextsOf(heap))) != Undefined
      modifies this`chunk, this`ip, this`stack, heap`size, heap`hash, heap`buffer, globals.Repr
      ensures Valid() && fresh(globals.Repr - old(globals.Repr))
      ensures var q := Parsing.CompileText(Unset, Unset, text, [], [], []);
        if q.hadError then result == CompilationError && State() == old(State())
        else old(Exec(q.code, q.constants, Machine(0, stack, map[], TextsOf(heap)))) == Finished(result, State())
    {
      ghost var start := Machine(0, stack, map[], TextsOf(heap));
      var ok, target := CompileNew(text);
      if !ok {
        return CompilationError;
      }
      Load(target);
      assert State() == start;
      result := Run();
    }

    /** The chunk becomes the current one, the instruction pointer its first byte, and the globals are cleared. */
    method Load(target: Chunk)
      requires Valid()
      modifies this`chunk, this`ip, globals.Repr
      ensures Valid() && fresh(globals.Repr - old(globals.Repr))
      ensures chunk == target && unchanged(target)
      ensures State() == old(State()).(ip := 0, globals := map[])
      ensures heap == old(heap)
    {
      chunk := target;
      ip := 0;
      ClearGlobals();
    }

    /** m_globals.clear(): no global is bound any more; nothing else changes. */
    method ClearGlobals()
      requires Valid()
      modifies globals.Repr
      ensures Valid() && fresh(globals.Repr - old(globals.Repr))
      ensures chunk == old(chunk) && unchanged(chunk)
      ensures State() == old(State()).(globals := map[])
      ensures heap == old(heap)
    {
      globals.Clear();
    }

    /** run: the dispatch loop, one instruction per pass, until a Return or a run-time error ends it. */
    method Run() returns (result: InterpretResult)
      requires Valid() && Exec(chunk.code, chunk.constants, State()) != Undefined
      modifies this`ip, this`stack, heap`size, heap`hash, heap`buffer, globals.Repr
      ensures Valid() && fresh(globals.Repr - old(globals.Repr))
      ensures chunk == old(chunk) && unchanged(chunk)
      ensures old(Exec(chunk.code, chunk.constants, State())) == Finished(result, State())
    {
      ghost var run := Exec(chunk.code, chunk.constants, State());
      while true
        invariant Valid() && fresh(globals.Repr - old(globals.Repr))
        invariant chunk == old(chunk) && unchanged(chunk)
        invariant Exec(chunk.code, chunk.constants, State()) == run
        decreases |chunk.code| - ip
      {
        var halt;
        halt, result := Execute();
        if halt {
          return;
        }
      }
    }

    /** One pass of the loop: the opcode is read, then its case of the switch runs. */
    method Execute() returns (halt: bool, result: InterpretResult)
      requires Valid() && CanStep(chunk.code, chunk.constants, State())
      modifies this`ip, this`stack, heap`size, heap`hash, heap`buffer, globals.Repr
      ensures Valid() && fresh(globals.Repr - old(globals.Repr))
      ensures chunk == old(chunk) && unchanged(chunk)
      ensures Reaches(Step(chunk.code, chunk.constants, old(State())), halt, result, State())
    {
      ghost var m := State();
      var opcode := ReadByte();
      if opcode == OpConstant || opcode == OpConstantLong {
        halt, result := ExecuteConstant(m, opcode);
      } else if opcode == OpDefGlobal || opcode == OpDefGlobalLong {
        halt, result := ExecuteDefine(m, opcode);
      } else if OpNegate <= opcode <= OpDivide {
        halt, result := ExecuteArithmetic(m, opcode);
      } else if OpNot <= opcode <= OpGreaterEqual {
        halt, result := ExecuteLogic(m, opcode);
      } else {
        halt, result := ExecuteStack(m, opcode);
      }
    }

    /** Constant and ConstantLong: the constant the operand names is pushed. */
    method ExecuteConstant(ghost m: Machine, opcode: CodeByte) returns (halt: bool, result: InterpretResult)
      requires Valid() && CanStep(chunk.code, chunk.constants, m) && opcode == chunk.code[m.ip]
      requires opcode == OpConstant || opcode == OpConstantLong
      requires State() == m.(ip := m.ip + 1)
      modifies this`ip, this`stack
      ensures Valid() && Reaches(Step(chunk.code, chunk.constants, m), halt, result, State())
      ensures chunk == old(chunk) && unchanged(chunk)
    {
      ConstantOutcome(chunk.code, chunk.constants, m);
      var constant := ReadOperand(m, opcode);
      Push(constant);
      return false, Success;
    }

    /** DefGlobal and DefGlobalLong: the constant the operand names is the String naming the global. */
    method ExecuteDefine(ghost m: Machine, opcode: CodeByte) returns (halt: bool, result: InterpretResult)
      requires Valid() && CanStep(chunk.code, chunk.constants, m) && opcode == chunk.code[m.ip]
      requires opcode == OpDefGlobal || opcode == OpDefGlobalLong
      requires State() == m.(ip := m.ip + 1)
      modifies this`ip, this`stack, globals.Repr
      ensures Valid() && fresh(globals.Repr - old(globals.Repr))
      ensures chunk == old(chunk) && unchanged(chunk)
      ensures Reaches(Step(chunk.code, chunk.constants, m), halt, result, State())
    {
      var constant := ReadOperand(m, opcode);
      DefineNamed(chunk.code, chunk.constants, m, heap);
      ghost var o := Step(chunk.code, chunk.constants, m);
      assert o == DefineGlobal(State(), constant.obj.Data());
      halt := DefineGlobalCase(Objects.AsString(constant.obj).value);
      result := RuntimeError;
      assert Reaches(o, halt, result, State());
    }

    /** The arithmetic cases: Negate, Add, Subtract, Multiply and Divide. */
    method ExecuteArithmetic(ghost m: Machine, opcode: CodeByte) returns (halt: bool, result: InterpretResult)
      requires Valid() && CanStep(chunk.code, chunk.constants, m) && opcode == chunk.code[m.ip]
      requires OpNegate <= opcode <= OpDivide
      requires State() == m.(ip := m.ip + 1)
      modifies this`stack, heap`size, heap`hash, heap`buffer
      ensures Valid() && Reaches(Step(chunk.code, chunk.constants, m), halt, result, State())
      ensures chunk == old(chunk) && unchanged(chunk)
    {
      if opcode == OpNegate {
        halt := NegateCase();
      } else if opcode == OpAdd {
        halt := AddCase();
      } else {
        halt := BinaryNumberCase(opcode);
      }
      result := RuntimeError;
    }

    /** Not, Equal, NotEqual and the comparisons. */
    method ExecuteLogic(ghost m: Machine, opcode: CodeByte) returns (halt: bool, result: InterpretResult)
      requires Valid() && CanStep(chunk.code, chunk.constants, m) && opcode == chunk.code[m.ip]
      requires OpNot <= opcode <= OpGreaterEqual
      requires State() == m.(ip := m.ip + 1)
      modifies this`stack
      ensures Valid() && Reaches(Step(chunk.code, chunk.constants, m), halt, result, State())
      ensures chunk == old(chunk) && unchanged(chunk)
    {
      if opcode == OpNot {
        NotCase();
        return false, Success;
      } else if opcode == OpEqual || opcode == OpNotEqual {
        EqualityCase(opcode == OpNotEqual);
        return false, Success;
      }
      halt := BinaryBoolCase(opcode);
      result := RuntimeError;
    }

    /**
     * Nil, True, False, Print, Pop and Return, and the opcodes the switch has
     * no case for, which do nothing once read.
     */
    method ExecuteStack(ghost m: Machine, opcode: CodeByte) returns (halt: bool, result: InterpretResult)
      requires Valid() && CanStep(chunk.code, chunk.constants, m) && opcode == chunk.code[m.ip]
      requires !(OpConstant <= opcode <= OpDefGlobalLong) && !(OpNegate <= opcode <= OpGreaterEqual)
      requires State() == m.(ip := m.ip + 1)
      modifies this`stack
      ensures Valid() && Reaches(Step(chunk.code, chunk.constants, m), halt, result, State())
      ensures chunk == old(chunk) && unchanged(chunk)
    {
      if opcode == OpNil {
        Push(Nil);
      } else if opcode == OpTrue {
        Push(Bool(true));
      } else if opcode == OpFalse {
        Push(Bool(false));
      } else if opcode == OpPrint || opcode == OpPop {
        DropCase();
      } else if opcode == OpReturn {
        return true, Success;
      }
      return false, Success;
    }
  }
}
