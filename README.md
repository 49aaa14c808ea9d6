# Lux: a verified model of the interpreter core

Lux is a small bytecode interpreter written in C++. A text goes through a
scanner, a single-pass Pratt compiler that writes postfix bytecode into a
chunk, and a stack virtual machine. Values are tagged: nil, booleans, numbers
and heap objects. The only object kind is a String that caches its 32-bit
FNV-1a hash. Global variables live in an open-addressing hash table with
linear probing and tombstones.

This project models that core in Dafny, one module per source file:

| module | file | models |
|---|---|---|
| `LuxStrings` | `lux_string.dfy` | `source/types/string.cpp`: FNV-1a, the String class and its constructors, assignments, `==` and `+=` |
| `Objects` | `object.dfy` | `source/types/object.cpp`: `asString` and `Object::operator==` |
| `LegacyObjects` | `legacy_object.dfy` | `source/object.cpp`: the older String without a hash, and the older `Object::operator==` |
| `Values` | `value.dfy` | `source/value.cpp`: the tagged value, `make*` and `operator==` |
| `HashTables` | `hash_table.dfy` | `source/types/hash_table.cpp`: a class over an array of slots |
| `Chunks` | `chunk.dfy` | `source/chunk.cpp`: the code buffer, the run-length line table and the constant pool |
| `Scanners` | `scanner.dfy` | `source/scanner.cpp`: pure functions for one `getToken` call, and the cursor as a class |
| `Parsing` | `parsing.dfy` | `source/compiler.cpp` as functions over a token stream, with the compile theorem |
| `Compilers` | `compiler.dfy` | `source/compiler.cpp` as a class, each method proved equal to its `Parsing` function |
| `VMs` | `vm.dfy` | `source/vm.cpp`: the semantics of one instruction and of a run, and the VM as a class |

The imperative parts are classes whose methods are proved against pure
specification functions:

- A String's hash field always equals FNV-1a of its buffer.
- The hash table keeps a probe invariant. Its `Contents()` map changes exactly as `insert` and `remove` promise.
- The chunk's line table always expands to the line of every code byte.
- The scanner's methods are proved against `ScanToken`.
- The compiler's methods are proved against the `Parsing` functions.
- The VM's `Run` loop ends exactly where the step semantics `Exec` ends.

The main end-to-end results:

- `Parsing.CompilesTree`: the tokens of any well-formed arithmetic expression compile without error to the expression's postfix code. The expression may use `+ - * /`, unary minus, parentheses and numbers.
- `VMs.RunsCompiledTree`: that postfix code runs to Success with the expression's value on the stack.
- `VMs.InterpretsTree`: the two combined, for a source text that scans to such an expression.

Numbers are Dafny `real`s. The hash is `bv32`, so it wraps modulo 2^32 as the
C++ `uint32_t` does. Sizes and indices are unbounded naturals.

## Model

| member | source | states |
|---|---|---|
| LuxStrings.HashString | source/types/string.cpp:7-14 | the loop over the first `length` bytes returns the 32-bit FNV-1a hash of those bytes (basis 2166136261, prime 16777619, wrapping mod 2^32) |
| LuxStrings.FnvFoldAppend | source/types/string.cpp:7-14 | hashing a concatenation continues from the hash of its first part |
| LuxStrings.Fnv1aSnoc | source/types/string.cpp:9-12 | one more byte costs exactly one more xor-then-multiply round |
| LuxStrings.FromBytes | source/types/string.cpp:36-44 | a String built from `(str, length)` is valid and terminated, has size `length + 1`, and its text is the first `length` bytes |
| LuxStrings.LuxString.FromChars | source/types/string.cpp:36-44 | the buffer is the `length` bytes followed by `'\0'`; the hash covers all `length + 1` bytes, terminator included |
| LuxStrings.StrEqualIsBufferEquality | source/types/string.cpp:51-56 | between Strings whose hash is current, `==` (hash, size, bytes) holds exactly when the buffers are equal |
| LuxStrings.StrEqualNonNullIsEquality | source/types/string.cpp:51-56 | between non-null Strings, `==` holds exactly when size, hash and bytes all agree |
| LuxStrings.Concatenated | source/types/string.cpp:58-69 | the target of `+=` is left valid and non-null: its hash is FNV-1a of its new buffer |
| LuxStrings.ConcatenatedText | source/types/string.cpp:58-69 | `+=` on terminated Strings yields a terminated String whose text is the left text followed by the right text |
| LuxStrings.LuxString.Append | source/types/string.cpp:58-69 | `+=` grows the size by `rhs.size - 1`, sets the buffer and hash to those of `Concatenated`, and leaves a distinct `rhs` unchanged |
| LuxStrings.LuxString.Copy | source/types/string.cpp:27-34 | the copy has the same size, hash and bytes, so it compares equal to the original |
| LuxStrings.LuxString.Move | source/types/string.cpp:16-25 | the new String takes the source's state; the source is left null, with size 0 and hash 0 |
| LuxStrings.LuxString.MoveAssign | source/types/string.cpp:71-84 | self-assignment changes nothing; otherwise the target takes the source's state and the source becomes null |
| LuxStrings.LuxString.CopyAssign | source/types/string.cpp:86-98 | self-assignment changes nothing; otherwise the target gets the source's size, hash and bytes and compares equal to it; the source is unchanged |
| LuxStrings.LuxString.Empty | source/types/string.cpp:16-25 | the null String that the default constructor makes |
| Objects.AsString | source/types/object.cpp:8-16 | the downcast succeeds exactly on objects tagged String and yields the same object |
| Objects.ObjectsEqualIsContentEquality | source/types/object.cpp:18-28 | two valid String objects are equal exactly when their buffers are equal, whatever their identities |
| Objects.ObjectsEqualReflexiveSymmetric | source/types/object.cpp:18-28 | object equality is reflexive and symmetric |
| LegacyObjects.LegacyString.FromChars | source/object.cpp:30-37 | the older String stores `length + 1` bytes: the input, then `'\0'` |
| LegacyObjects.LegacyEqualAgreesWithHashed | source/object.cpp:44-48 | the older `==` (size and bytes, no hash) agrees with the hashed `==` on valid non-null Strings |
| LegacyObjects.LegacyConcatenated | source/object.cpp:50-60 | the older `+=` leaves a well-formed buffer of size `a.size + b.size - 1` |
| LegacyObjects.LegacyConcatenatedText | source/object.cpp:50-60 | the older `+=` joins the two texts and keeps one terminator |
| LegacyObjects.LegacyString.Append | source/object.cpp:50-60 | the older `+=` sets the state to `LegacyConcatenated` and leaves a distinct `rhs` unchanged |
| LegacyObjects.LegacyAsString | source/object.cpp:8-16 | the older downcast succeeds exactly on String-tagged objects and yields the same object |
| LegacyObjects.LegacyObjectsEqualIsContentEquality | source/object.cpp:18-28 | the older object equality holds exactly when the bytes are equal |
| Values.MakeNil | source/value.cpp:7-12 | the value has the Nil tag |
| Values.MakeBool | source/value.cpp:14-20 | the value has the Bool tag and that boolean |
| Values.MakeNumber | source/value.cpp:22-28 | the value has the Number tag and that number |
| Values.MakeObject | source/value.cpp:30-36 | the value has the Object tag and refers to that object |
| Values.ValuesEqualCases | source/value.cpp:38-51 | different tags are unequal; nil equals nil; booleans and numbers compare their payloads; objects compare by content, not by identity |
| Values.NilFalseZeroDistinct | source/value.cpp:40 | nil, false and 0 are pairwise unequal, in both directions |
| Values.ValuesEqualReflexiveSymmetric | source/value.hpp:34 | `==` is reflexive and symmetric, and `!=` is exactly its negation |
| HashTables.SlotNext | source/types/hash_table.cpp:56-72 | probing starts at `hash % capacity` and each step moves to the next slot, wrapping at the end |
| HashTables.FindSlot | source/types/hash_table.cpp:54-74 | the probe loop ends (given an empty slot) at the first slot holding an equal key before any empty slot, else at the first tombstone passed, else at the empty slot |
| HashTables.FindsPresentKey | source/types/hash_table.cpp:54-74 | under the table invariant, `find` returns the slot that holds the key whenever one does |
| HashTables.FindsFreeSlot | source/types/hash_table.cpp:54-74 | for an absent key, `find` returns a slot with a null key, reached without crossing an empty slot |
| HashTables.CountUsedBound | source/types/hash_table.cpp:78 | live slots are at most the used slots, and a used count below the capacity leaves an empty slot, so `find` terminates |
| HashTables.InsertEffect | source/types/hash_table.cpp:26-34 | writing the key into the slot `find` reports keeps the probe invariant and maps the key to the value; size grows only when that slot was empty |
| HashTables.RemoveEffect | source/types/hash_table.cpp:36-47 | turning the key's slot into a tombstone keeps the invariant and removes exactly that key from the contents |
| HashTables.HashTable.constructor | source/types/hash_table.cpp:7-11 | capacity 8, size 0, every slot empty, no contents |
| HashTables.HashTable.Clear | source/types/hash_table.cpp:18-24 | back to capacity 8, size 0, every slot empty and no contents |
| HashTables.HashTable.Find | source/types/hash_table.cpp:54-74 | the index is a slot holding the key when the key is present, otherwise a slot with a null key |
| HashTables.HashTable.Contains | source/types/hash_table.cpp:49-52 | true exactly when the key is present, that is, when it is a key of the contents |
| HashTables.HashTable.Insert | source/types/hash_table.cpp:26-34 | the contents become the old contents with the key mapped to the value; afterwards the key is present |
| HashTables.HashTable.Remove | source/types/hash_table.cpp:36-47 | returns whether the key was present; afterwards it is absent, the contents lose exactly that key, and size and capacity stay |
| HashTables.HashTable.AdjustCapacity | source/types/hash_table.cpp:76-98 | below the load limit nothing changes; otherwise the capacity grows by half, tombstones are dropped, size becomes the live count, and the contents are kept |
| HashTables.HashTable.Rehash | source/types/hash_table.cpp:83-93 | every live entry is re-inserted into the new array, which keeps the probe invariant and the contents, has no tombstones, and size counts its live entries |
| HashTables.HashTable.AdjustCapacityAsWritten | source/types/hash_table.cpp:76-98 | as written, growth installs an array with every slot empty, so no key is present afterwards, while size is set to the old live count |
| HashTables.HashTable.RehashInPlace | source/types/hash_table.cpp:84-93 | the loop as written copies each live entry onto itself in the old array; only size changes |
| Chunks.ExpandedAppend | source/chunk.cpp:9-12 | the line of every byte, read from a concatenation of run lists, is the concatenation of the lines of each part |
| Chunks.ExpandedWithinRun | source/chunk.cpp:51-63 | every byte inside run `i` carries that run's line |
| Chunks.EncodeIndexedRoundTrip | source/chunk.cpp:15-31 | the one-byte or three-byte little-endian operand reads back as the index modulo 2^24, exactly the index below 2^24; the first byte tells the forms apart |
| Chunks.Chunk.constructor | source/chunk.cpp:5-13 | an empty chunk: no code, no runs, no constants |
| Chunks.Chunk.Write | source/chunk.cpp:5-13 | appends exactly one byte; the last run grows when its line matches, otherwise a run of one is added; the line table still covers every byte |
| Chunks.Chunk.GetLine | source/chunk.cpp:51-63 | for an offset inside the code, the line given to the write that produced that byte |
| Chunks.Chunk.AddConstant | source/chunk.cpp:65-69 | appends the value and returns the previous pool size |
| Chunks.Chunk.WriteConstant | source/chunk.cpp:15-31 | adds the constant and emits Constant or ConstantLong with its index, every byte on the given line, adding at most one run |
| Chunks.Chunk.WriteGlobal | source/chunk.cpp:33-49 | the same encoding with DefGlobal and DefGlobalLong |
| Scanners.CommentEnd | source/scanner.cpp:73 | a `//` comment runs to the next newline or the terminator, neither of which it consumes |
| Scanners.SkipWsStops | source/scanner.cpp:61-79 | whitespace skipping stops on a character that is not a blank, a newline or the start of a `//` comment; the line grows by the newlines passed |
| Scanners.DigitsEnd | source/scanner.cpp:128 | a digit run ends at the first non-digit |
| Scanners.IdentEnd | source/scanner.cpp:141 | an identifier runs over letters, digits and `_` to the first other character |
| Scanners.StringEnd | source/scanner.cpp:112-116 | a string body runs to the closing quote or the terminator, and the line counts its newlines |
| Scanners.CheckKeywordMeans | source/scanner.cpp:181-187 | `checkKeyword` accepts exactly the lexeme made of its first characters and `rest` |
| Scanners.IdentifierTypeIsKeywordLookup | source/scanner.cpp:145-179 | the trie gives a keyword type exactly when the lexeme is that keyword's whole text, and Identifier otherwise |
| Scanners.KeywordsRecognisedAToN | source/scanner.cpp:145-179 | each of the first eight keywords is typed as itself |
| Scanners.KeywordsRecognisedOToW | source/scanner.cpp:145-179 | each of the last eight keywords is typed as itself |
| Scanners.ErrorToken | source/scanner.cpp:101-108 | an Error token whose text is the message |
| Scanners.ScanToken | source/scanner.cpp:12-41 | the token starts after the skipped whitespace, and every token but EndOfFile moves the cursor |
| Scanners.ScanTokenAtEnd | source/scanner.cpp:15-16 | at the end of the text, `getToken` returns EndOfFile again without moving |
| Scanners.ScanTokenLexeme | source/scanner.cpp:91-99 | every token but an error is the source text from start to the cursor, on the current line |
| Scanners.ScanTokenLines | source/scanner.cpp:61-79 | the line after a call is the line before plus the newlines the cursor passed |
| Scanners.ScanTokenKeepsLineCount | source/scanner.cpp:65-66 | the line count stays one plus the newlines before the cursor |
| Scanners.PairTokens | source/scanner.cpp:33-36 | `!`, `=`, `<` and `>` take a following `=` into a two-character token, otherwise they are one character |
| Scanners.NumberIsMaximal | source/scanner.cpp:126-137 | a number token is digits, optionally a `.` and digits, and cannot be extended |
| Scanners.TrailingDotIsNotPartOfNumber | source/scanner.cpp:130 | `12.` scans as the number `12` followed by a Dot |
| Scanners.StringToken | source/scanner.cpp:110-124 | a string token runs from quote to quote inclusive; without a closing quote it is the error "Unterminated string." |
| Scanners.UnexpectedCharacter | source/scanner.cpp:18-40 | any other character gives the error "Unexpected character." and consumes exactly that character |
| Scanners.Tokens | source/scanner.cpp:12-41 | the stream of tokens from a cursor begins with the next token and ends at its first and only EndOfFile |
| Scanners.TokensStep | source/scanner.cpp:12-41 | each call hands out the first token of the stream and leaves the rest; EndOfFile then repeats |
| Scanners.Scanner.constructor | source/scanner.cpp:7-10 | both pointers at the first character, line 1 |
| Scanners.Scanner.Advance | source/scanner.cpp:43-46 | returns the current character and steps past it |
| Scanners.Scanner.Match | source/scanner.cpp:48-53 | steps past the current character exactly when it is the expected one and not the terminator |
| Scanners.Scanner.PeekNext | source/scanner.cpp:55-59 | the character after the current one, or `'\0'` at the end |
| Scanners.Scanner.SkipWhitespace | source/scanner.cpp:61-79 | the loop leaves the cursor and line that `SkipWs` gives |
| Scanners.Scanner.MakeToken | source/scanner.cpp:91-99 | the text from start to the cursor, with the given type, on the current line |
| Scanners.Scanner.StringLiteral | source/scanner.cpp:110-124 | the loop stops where `StringEnd` does and returns the string token or the unterminated error |
| Scanners.Scanner.NumberLiteral | source/scanner.cpp:126-137 | the cursor ends where `NumberEnd` says, and the token is that number text |
| Scanners.Scanner.IdentifierLiteral | source/scanner.cpp:139-143 | the cursor ends where `IdentEnd` says, and the token is typed by `identifierType` |
| Scanners.Scanner.GetToken | source/scanner.cpp:12-41 | returns the token `ScanToken` gives and leaves the start, cursor and line it gives |
| Parsing.InfixRules | source/compiler.cpp:144-185 | only the four arithmetic operators bind as infix, all through `binary`; `* /` are Factor and `+ -` Term; only `(`, `-` and numbers have prefix rules |
| Parsing.ErrorAt | source/compiler.cpp:124-137 | in panic mode nothing changes; otherwise `hadError` and panic mode are both set |
| Parsing.AdvanceLoop | source/compiler.cpp:34-40 | tokens are taken until one is not an error; each error token is reported |
| Parsing.Advance | source/compiler.cpp:30-41 | the current token becomes the previous one and the next non-error token the current one |
| Parsing.Consume | source/compiler.cpp:43-51 | advances exactly when the current token has the expected type, otherwise reports an error and stays |
| Parsing.EmitByte | source/compiler.cpp:114-117 | appends one byte, tagged with the previous token's line |
| Parsing.EmitConstant | source/compiler.cpp:119-122 | appends the constant's encoding, every byte tagged with the previous token's line |
| Parsing.OperatorCode | source/compiler.cpp:105-110 | exactly the four arithmetic operators have an opcode |
| Parsing.CompileTokens | source/compiler.cpp:10-28 | compile always ends the code with Return |
| Parsing.CompilesTree | source/compiler.cpp:10-122 | the tokens of a well-formed expression followed by EndOfFile compile without error to its postfix code plus Return; its constants are appended and each byte carries its token's line |
| Parsing.ParsesTree | source/compiler.cpp:58-111 | `parsePrecedence` on the tokens of a well-formed expression emits its postfix code and stops at the first token that binds less tightly |
| Parsing.CompilesSumOfProduct | source/compiler.cpp:99-111 | an illustration on one input of what `Parsing.CompilesTree` proves for all: `1 + 2 * 3` compiles to `Constant 0, Constant 1, Constant 2, Multiply, Add, Return` |
| Parsing.MissingOperandIsAnError | source/compiler.cpp:58-65 | `1 +` followed by the end of the text is reported as an error |
| Parsing.ErrorSticks | source/compiler.cpp:124-137 | nothing clears the error flags: once set, hadError and panicMode survive parsePrecedence, its infix loop, consuming the end and emitting Return, and in panic mode a further report changes nothing |
| Parsing.CompileKeepsErrors | source/compiler.cpp:19-27 | an error reported while parsing the expression makes compile fail |
| Compilers.Compiler.constructor | source/compiler.hpp:71-76 | a compiler before any text: no error, not in panic mode, an empty chunk, and placeholder tokens that `compile` overwrites before reading them |
| Compilers.Compiler.ErrorAt | source/compiler.cpp:124-137 | the state `Parsing.ErrorAt` gives |
| Compilers.Compiler.Advance | source/compiler.cpp:30-41 | the state `Parsing.Advance` gives |
| Compilers.Compiler.Consume | source/compiler.cpp:43-51 | the state `Parsing.Consume` gives |
| Compilers.Compiler.EmitByte | source/compiler.cpp:114-117 | the state `Parsing.EmitByte` gives |
| Compilers.Compiler.EmitConstant | source/compiler.cpp:119-122 | the state `Parsing.EmitConstant` gives |
| Compilers.Compiler.Compile | source/compiler.cpp:10-28 | the chunk holds what `Parsing.CompileText` gives for the text, and the result is true exactly when no error was reported |
| Compilers.Compiler.Expression | source/compiler.cpp:53-56 | the state `Parsing.Expression` gives |
| Compilers.Compiler.ParsePrecedence | source/compiler.cpp:58-73 | the state `Parsing.ParsePrecedence` gives |
| Compilers.Compiler.InfixOperators | source/compiler.cpp:68-72 | the state `Parsing.InfixLoop` gives |
| Compilers.Compiler.NumberConstant | source/compiler.cpp:75-79 | the state `Parsing.NumberConstant` gives |
| Compilers.Compiler.Grouping | source/compiler.cpp:81-85 | the state `Parsing.Grouping` gives |
| Compilers.Compiler.Unary | source/compiler.cpp:87-97 | the state `Parsing.Unary` gives |
| Compilers.Compiler.Binary | source/compiler.cpp:99-111 | the state `Parsing.Binary` gives |
| VMs.IsFalsey | source/vm.cpp:125-128 | true exactly for nil and false, the opposite of a value's conversion to bool |
| VMs.Step | source/vm.cpp:54-116 | one pass reads the opcode and its operand bytes and stays inside the code |
| VMs.StepOutcome | source/vm.cpp:54-116 | an instruction fails exactly when it is rejected (a global redefined, a non-number negated, `+` on a mixed pair, arithmetic or comparison on non-numbers); a failure clears the stack; only Return halts with Success; otherwise the operands are replaced by the results and nothing below changes; globals are never unbound or rebound |
| VMs.ExecOutcome | source/vm.cpp:20-123 | a run that ends returns Success just after a Return, or RuntimeError with an empty stack, never CompilationError; every global bound before keeps its value |
| VMs.NotIsNegation | source/vm.cpp:94-96 | Not replaces the top by its logical negation: a boolean is flipped, nil becomes true, a number or object becomes false |
| VMs.AddConcatenates | source/vm.cpp:77-90 | `+` on two Strings pops the right one and leaves the left String holding the left text followed by the right text; every other String keeps its text |
| VMs.ConstantStep | source/vm.cpp:57 | Constant or ConstantLong written for pool index `i` pushes `constants[i]` and moves past its operand |
| VMs.ExecTree | source/vm.cpp:20-123 | the postfix code of an expression leaves the expression's value on the stack |
| VMs.RunsCompiledTree | source/vm.cpp:20-123 | an expression's code plus Return runs to Success with the expression's value pushed |
| VMs.InterpretsTree | source/vm.cpp:8-18 | a text that scans to a well-formed expression compiles without error and runs to Success with its value pushed |
| VMs.NotAsWrittenKeepsTrue | source/vm.cpp:94-96 | as written, `true !` finishes with `true` on the stack |
| VMs.NotNegatesTrue | source/vm.cpp:94-96 | an illustration on one input of what `VMs.NotIsNegation` proves for all: with Not as negation, `true !` finishes with `false` on the stack |
| VMs.StepAsWritten | source/vm.cpp:20-116 | one pass of the loop as written moves the ip forward and stays inside the code |
| VMs.ExecAsWritten | source/vm.cpp:20-116 | a run of the loop as written that ends stops inside the code, past where it started |
| VMs.StepAsWrittenAgrees | source/vm.cpp:54-116 | the loop as written takes the corrected step on every opcode but Not, ConstantLong and DefGlobalLong; on a boolean, Not as written leaves a different state from Not as negation |
| VMs.ExecAsWrittenAgrees | source/vm.cpp:20-116 | when no instruction decoded from the ip, skipping operand bytes as the loop does and stopping at the first Return (or else at the end of the code), is Not, ConstantLong or DefGlobalLong, the run as written ends exactly as `Exec` says; operand bytes may hold any value |
| VMs.CompiledCodeIsClean | source/chunk.cpp:15-31 | the code of an expression with at most 256 constants decodes, with operand bytes skipped, to instructions none of which is Not, ConstantLong or DefGlobalLong, ending exactly at its end |
| VMs.RunsCompiledTreeAsWritten | source/vm.cpp:20-116 | under the loop as written, an expression with at most 256 constants still compiles to code that runs to Success with the expression's value pushed |
| VMs.LongConstantAsWritten | source/vm.cpp:24 | as written, a ConstantLong for index 283 runs its operand byte 27 as Return and pushes nothing; read as an operand it pushes `constants[283]` |
| VMs.CompileNew | source/vm.cpp:10-12 | a new compiler and chunk hold what `Parsing.CompileText` gives for the text, and `ok` is the absence of errors |
| VMs.VM.constructor | source/vm.hpp:34-37 | an empty stack, an empty globals table and no heap Strings |
| VMs.VM.Push | source/vm.cpp:144-147 | the value is appended to the stack |
| VMs.VM.Pop | source/vm.cpp:149-154 | returns the top and removes it |
| VMs.VM.Peek | source/vm.cpp:156-159 | the value `distance` places below the top |
| VMs.VM.ReadByte | source/vm.cpp:22 | the byte at the instruction pointer, which moves past it |
| VMs.VM.ReadConstant | source/vm.cpp:23 | the constant a one-byte operand names |
| VMs.VM.ReadConstantLong | source/vm.cpp:24 | the constant a three-byte little-endian operand names |
| VMs.VM.ReportRuntimeError | source/vm.cpp:130-142 | the stack is cleared and nothing else changes |
| VMs.VM.DefineGlobalCase | source/vm.cpp:58-66 | a name already bound fails; otherwise the popped value is bound to a copy of the name |
| VMs.VM.NegateCase | source/vm.cpp:70-76 | the state the Negate step gives, failing on a non-number |
| VMs.VM.AddCase | source/vm.cpp:77-90 | the state the Add step gives: two Strings concatenate in place, two numbers add, anything else fails |
| VMs.VM.ConcatenateStrings | source/vm.cpp:79-82 | the right String is popped and appended to the left String object in place |
| VMs.VM.BinaryNumberCase | source/vm.cpp:25-32 | the state the Subtract, Multiply or Divide step gives, failing unless both operands are numbers |
| VMs.VM.NotCase | source/vm.cpp:94-96 | the state the corrected Not step gives |
| VMs.VM.EqualityCase | source/vm.cpp:97-104 | both operands are popped and the boolean of `==` or `!=` is pushed |
| VMs.VM.BinaryBoolCase | source/vm.cpp:33-40 | the state a comparison step gives, failing unless both operands are numbers |
| VMs.VM.DropCase | source/vm.cpp:109-113 | the top is popped |
| VMs.VM.Execute | source/vm.cpp:54-116 | one pass of the loop reaches exactly what `Step` gives |
| VMs.VM.Run | source/vm.cpp:20-123 | the loop returns the result `Exec` gives and leaves its final state |
| VMs.VM.ClearGlobals | source/vm.cpp:16 | no global is bound any more and nothing else changes |
| VMs.VM.Interpret | source/vm.cpp:8-18 | a compile error returns CompilationError without running; otherwise the globals are cleared and the result and final state are those `Exec` gives from the first byte |

## Left out

- Printing is output and is not modelled. This covers `printValue`, `printObject`, the report of `errorAt`, the message and line of `runtimeError`, the Print opcode's output and the debug traces. Only the effects are kept: the error flags, the cleared stack and the result code.
- `source/debug.cpp`, `source/main.cpp` and `tests/error_output_tests.cpp` are not part of this model. Neither are the statement handlers that `source/compiler.hpp` declares and `compiler.cpp` does not define.
- Memory management is not modelled: `new`/`delete`, leaked buffers and `dynamic_cast`. Strings are class references, and a String has no other kind of object to be cast from.
- Numbers are reals. IEEE rounding, infinities and NaN are out, so `0.0 / 0.0 == 0.0 / 0.0` is true here.
- VMs.Quotient: division by zero gives 0 instead of an IEEE infinity or NaN.
- Parsing.NumberValue: the constant is the exact decimal value of the lexeme, not `strtod`'s rounded double.
- Compilers.Compiler.NumberConstant: `strtod` is not bounded by the lexeme (`source/compiler.cpp:77`). It also reads a following exponent or hex part that the scanner has made into an identifier, so `1e5` gives 100000 there and 1 here, and `0x1A` gives 26 there and 0 here. The constant pool then differs, but every such text fails at `Consume(EndOfFile)`, so `interpret` returns the same result.
- The scanner reads characters, not bytes. The source walks `const char*`, so a character outside ASCII is two to four bytes there and gives one "Unexpected character." Error token per byte; here it gives one. Such a text never compiles in either.
- `errorToken` leaves the token's line uninitialised. The model gives that token line 0, and nothing reads it.
- The opcodes for locals and for getting and setting globals have no case in `run`. The model reads them and does nothing else.
- VMs.VM.Run: requires that the run is defined. Stack underflow, a pool index outside the pool, or code without a final Return is undefined behaviour in the source; `Exec` then says Undefined.
- VMs.VM.Interpret: has the same precondition, stated of the code the text compiles to.
- VMs.InterpretsTree: needs the expression's constants to fit the 24-bit operand (at most 2^24). Beyond that the encoding wraps and the source reads the wrong constant.
- VMs.RunsCompiledTree: has the same 24-bit bound.
- LuxStrings.LuxString.Append: requires a non-null left-hand side (`size >= 1`). For a null String the source computes `m_size - 1` on a `size_t` of 0, which wraps and is undefined behaviour.
- LegacyObjects.LegacyString.Append: has the same requirement, for the same reason.
- HashTables.HashTable.Insert: requires a non-null key. `DefGlobal` only ever inserts a String made from a constant, which is never null.
- The VM uses the corrected Not and reads the long operands (see Findings). The as-written behaviour is modelled by `VMs.StepAsWritten` and `VMs.ExecAsWritten`.
- The table uses the corrected rehash (see Findings).
- Compilers.Compiler.Compile: the scanner is a field the compiler replaces. The model does not capture that a `std::unique_ptr` frees the previous scanner.

## Findings

| source | as written | input that shows it | evidently intended | confidence | as-written member | corrected member |
|---|---|---|---|---|---|---|
| source/types/hash_table.cpp:89 | the rehash loop calls `find` on the old array, so each live entry is copied onto itself, and the newly allocated array, installed at lines 96-97, holds nothing | a table of capacity 8 holding 5 live keys, when a sixth is inserted (4 × 6 is not below 3 × 8) | every live key is re-inserted into the new array and stays contained | not executed | HashTables.HashTable.AdjustCapacityAsWritten | HashTables.HashTable.AdjustCapacity |
| source/vm.cpp:94-96 | Not writes the value's truthiness into the `boolean` payload and keeps the tag: `true` stays `true`, nil stays nil, and on a number or object the write lands in the wrong member of the union | the program `true !`, i.e. `[True, Not, Return]` | Not pushes the negation of truthiness, `Bool(isFalsey(top))` | not executed | VMs.NotAsWrittenKeepsTrue | VMs.NotIsNegation |
| source/vm.cpp:24 | ConstantLong and DefGlobalLong have no case in the switch, so their three operand bytes are run as opcodes | a chunk whose 284th constant is written: `[ConstantLong, 27, 1, 0, Return]`, where byte 27 is Return | read the three little-endian operand bytes and push (or define) the constant they name | not executed | VMs.LongConstantAsWritten | VMs.ConstantStep |
