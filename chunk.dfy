/**
 * The bytecode chunk (source/chunk.cpp): an append-only code buffer, a
 * run-length line table saying which source line each byte came from, and the
 * constant pool. Constant and global operands are one byte, or three
 * little-endian bytes behind the Long form of the opcode once the pool index
 * reaches 256.
 */
module Chunks {
  import opened Values

  /** An unsigned 8-bit code byte. */
  type CodeByte = b: int | 0 <= b < 256

  /** The opcodes, numbered as the OpCode enumeration numbers them. */
  const OpConstant: CodeByte := 0
  const OpConstantLong: CodeByte := 1
  const OpDefGlobal: CodeByte := 2
  const OpDefGlobalLong: CodeByte := 3
  const OpGetGlobal: CodeByte := 4
  const OpGetGlobalLong: CodeByte := 5
  const OpSetGlobal: CodeByte := 6
  const OpSetGlobalLong: CodeByte := 7
  const OpGetLocal: CodeByte := 8
  const OpSetLocal: CodeByte := 9
  const OpNil: CodeByte := 10
  const OpTrue: CodeByte := 11
  const OpFalse: CodeByte := 12
  const OpNegate: CodeByte := 13
  const OpAdd: CodeByte := 14
  const OpSubtract: CodeByte := 15
  const OpMultiply: CodeByte := 16
  const OpDivide: CodeByte := 17
  const OpNot: CodeByte := 18
  const OpEqual: CodeByte := 19
  const OpNotEqual: CodeByte := 20
  const OpLess: CodeByte := 21
  const OpLessEqual: CodeByte := 22
  const OpGreater: CodeByte := 23
  const OpGreaterEqual: CodeByte := 24
  const OpPrint: CodeByte := 25
  const OpPop: CodeByte := 26
  const OpReturn: CodeByte := 27

  /** One run of the line table: count consecutive bytes that came from line. */
  datatype LineInfo = LineInfo(line: nat, count: nat)

  /** The number of bytes the runs cover. */
  function Total(lines: seq<LineInfo>): nat
  {
    if lines == [] then 0 else Total(lines[..|lines| - 1]) + lines[|lines| - 1].count
  }

  /** The line of every byte, run by run. */
  function Expanded(lines: seq<LineInfo>): seq<nat>
  {
    if lines == [] then [] else Expanded(lines[..|lines| - 1]) + seq(lines[|lines| - 1].count, _ => lines[|lines| - 1].line)
  }

  /** Runs are non-empty and neighbouring runs come from different lines. */
  predicate RunsWellFormed(lines: seq<LineInfo>)
  {
    (forall i :: 0 <= i < |lines| ==> lines[i].count >= 1) &&
    (forall i :: 0 <= i < |lines| - 1 ==> lines[i].line != lines[i + 1].line)
  }

  lemma {:induction false} ExpandedLength(lines: seq<LineInfo>)
    ensures |Expanded(lines)| == Total(lines)
  {
    if lines != [] {
      ExpandedLength(lines[..|lines| - 1]);
    }
  }

  /** Expanding a concatenation of run lists expands each part. */
  lemma {:induction false} ExpandedAppend(a: seq<LineInfo>, b: seq<LineInfo>)
    ensures Expanded(a + b) == Expanded(a) + Expanded(b)
    ensures Total(a + b) == Total(a) + Total(b)
    decreases |b|
  {
    if b == [] {
      assert a + b == a;
    } else {
      var init := b[..|b| - 1];
      assert (a + b)[..|a + b| - 1] == a + init;
      ExpandedAppend(a, init);
    }
  }

  /** Within run i, every byte carries that run's line. */
  lemma ExpandedWithinRun(lines: seq<LineInfo>, i: nat, offset: nat)
    requires i < |lines| && Total(lines[..i]) <= offset < Total(lines[..i]) + lines[i].count
    ensures offset < |Expanded(lines)| && Expanded(lines)[offset] == lines[i].line
  {
    assert lines == lines[..i] + [lines[i]] + lines[i + 1..];
    ExpandedAppend(lines[..i] + [lines[i]], lines[i + 1..]);
    ExpandedAppend(lines[..i], [lines[i]]);
    ExpandedLength(lines[..i]);
    assert [lines[i]][..0] == [];
  }

  lemma PrefixTotal(lines: seq<LineInfo>, i: nat)
    requires i < |lines|
    ensures Total(lines[..i + 1]) == Total(lines[..i]) + lines[i].count
  {
    assert lines[..i + 1][..i] == lines[..i];
  }

  /**
   * The operand form of writeConstant and writeGlobal: the short opcode and a
   * one-byte index below 256, otherwise the long opcode and the index in three
   * little-endian bytes.
   */
  function EncodeIndexed(op: CodeByte, opLong: CodeByte, index: nat): (bytes: seq<CodeByte>)
    ensures |bytes| == (if index < 256 then 2 else 4)
  {
    if index >= 256 then [opLong, index % 256, (index / 256) % 256, (index / 65536) % 256]
    else [op, index]
  }

  /** Reading an operand back: one byte, or three little-endian bytes. */
  function DecodeIndex(bytes: seq<CodeByte>): nat
    requires |bytes| == 2 || |bytes| == 4
  {
    if |bytes| == 2 then bytes[1] else bytes[1] as int + 256 * bytes[2] as int + 65536 * bytes[3] as int
  }

  /**
   * The encoding is read back as the index modulo 2^24: exactly the index
   * whenever it fits in 24 bits. The first byte tells the two forms apart.
   */
  lemma EncodeIndexedRoundTrip(op: CodeByte, opLong: CodeByte, index: nat)
    ensures DecodeIndex(EncodeIndexed(op, opLong, index)) == index % 16777216
    ensures index < 16777216 ==> DecodeIndex(EncodeIndexed(op, opLong, index)) == index
    ensures EncodeIndexed(op, opLong, index)[0] == if index < 256 then op else opLong
  {
    if index >= 256 {
      var b0, b1, b2 := index % 256, (index / 256) % 256, (index / 65536) % 256;
      assert index / 256 == 256 * (index / 65536) + b1;
      assert index == 256 * (index / 256) + b0;
      assert index / 65536 == 256 * (index / 16777216) + b2;
      assert index == 16777216 * (index / 16777216) + (b0 + 256 * b1 + 65536 * b2);
    }
  }

  /** The chunk: m_code, m_lines and m_constants. */
  class Chunk {
    var code: seq<CodeByte>
    var lines: seq<LineInfo>
    var constants: seq<Value>

    /** The runs cover the code exactly and are well formed. */
    ghost predicate Valid()
      reads this
    {
      Total(lines) == |code| && RunsWellFormed(lines)
    }

    /** The source line of every code byte. */
    ghost function LineOf(): seq<nat>
      reads this
    {
      Expanded(lines)
    }

    constructor ()
      ensures Valid() && code == [] && lines == [] && constants == []
    {
      code, lines, constants := [], [], [];
    }

    /**
     * write: appends one byte; the last run grows when it is on the same line,
     * otherwise a run of one byte on the new line is appended.
     */
    method Write(byte: CodeByte, line: nat)
      requires Valid()
      modifies this
      ensures Valid()
      ensures code == old(code) + [byte] && constants == old(constants)
      ensures LineOf() == old(LineOf()) + [line]
      ensures lines != [] && lines[|lines| - 1].line == line
      ensures |lines| == |old(lines)| + (if old(lines) != [] && old(lines)[|old(lines)| - 1].line == line then 0 else 1)
      ensures if old(lines) != [] && old(lines)[|old(lines)| - 1].line == line
        then lines == old(lines)[..|old(lines)| - 1] + [LineInfo(line, old(lines)[|old(lines)| - 1].count + 1)]
        else lines == old(lines) + [LineInfo(line, 1)]
    {
      code := code + [byte];
      if |lines| > 0 && lines[|lines| - 1].line == line {
        var last := lines[|lines| - 1];
        var init := lines[..|lines| - 1];
        lines := init + [LineInfo(line, last.count + 1)];
        assert lines[..|lines| - 1] == init;
        assert old(lines)[..|old(lines)| - 1] == init;
        assert Expanded(lines) == Expanded(old(lines)) + [line];
      } else {
        ghost var before := lines;
        lines := lines + [LineInfo(line, 1)];
        assert lines[..|lines| - 1] == before;
      }
    }

    /** getLine: scans the runs, summing their counts until offset falls inside one. */
    method GetLine(offset: nat) returns (line: nat)
      requires Valid() && offset < |code|
      ensures offset < |LineOf()| && line == LineOf()[offset]
    {
      var lastIndex := 0;
      var i := 0;
      while i < |lines|
        invariant i <= |lines| && lastIndex == Total(lines[..i]) <= offset
      {
        PrefixTotal(lines, i);
        if lastIndex + lines[i].count <= offset {
          lastIndex := lastIndex + lines[i].count;
        } else {
          break;
        }
        i := i + 1;
      }
      // the runs cover the whole code, so the scan stops inside one of them
      assert lines[..|lines|] == lines;
      assert i < |lines|;
      ExpandedWithinRun(lines, i, offset);
      line := lines[i].line;
    }

    /** addConstant: appends the value and returns its index. */
    method AddConstant(value: Value) returns (index: nat)
      modifies this
      ensures constants == old(constants) + [value] && index == |old(constants)|
      ensures code == old(code) && lines == old(lines)
    {
      constants := constants + [value];
      index := |constants| - 1;
    }

    /** The write calls shared by writeConstant and writeGlobal, for the pool index just allocated. */
    method WriteIndexed(index: nat, line: nat, op: CodeByte, opLong: CodeByte)
      requires Valid()
      modifies this
      ensures Valid() && constants == old(constants)
      ensures code == old(code) + EncodeIndexed(op, opLong, index)
      ensures LineOf() == old(LineOf()) + seq(|EncodeIndexed(op, opLong, index)|, _ => line)
      ensures |lines| <= |old(lines)| + 1
    {
      ghost var before := LineOf();
      if index >= 256 {
        var rest := index;
        Write(opLong, line);
        Write(rest % 256, line);
        rest := rest / 256;
        Write(rest % 256, line);
        rest := rest / 256;
        Write(rest % 256, line);
        assert index / 256 / 256 == index / 65536;
        assert LineOf() == before + [line] + [line] + [line] + [line];
      } else {
        Write(op, line);
        Write(index, line);
        assert LineOf() == before + [line] + [line];
      }
    }

    /** writeConstant: adds the value to the pool and emits Constant or ConstantLong with its index. */
    method WriteConstant(constant: Value, line: nat)
      requires Valid()
      modifies this
      ensures Valid() && constants == old(constants) + [constant]
      ensures code == old(code) + EncodeIndexed(OpConstant, OpConstantLong, |old(constants)|)
      ensures LineOf() == old(LineOf()) + seq(|code| - |old(code)|, _ => line)
      ensures |lines| <= |old(lines)| + 1
    {
      var index := AddConstant(constant);
      WriteIndexed(index, line, OpConstant, OpConstantLong);
    }

    /** writeGlobal: adds the name to the pool and emits DefGlobal or DefGlobalLong with its index. */
    method WriteGlobal(global: Value, line: nat)
      requires Valid()
      modifies this
      ensures Valid() && constants == old(constants) + [global]
      ensures code == old(code) + EncodeIndexed(OpDefGlobal, OpDefGlobalLong, |old(constants)|)
      ensures LineOf() == old(LineOf()) + seq(|code| - |old(code)|, _ => line)
      ensures |lines| <= |old(lines)| + 1
    {
      var index := AddConstant(global);
      WriteIndexed(index, line, OpDefGlobal, OpDefGlobalLong);
    }
  }
}
