/** Tokens and statements: what the lexer produces and what the assembler consumes. */
module Syntax {
  import opened Words

  datatype TokenKind = Identifier | Register | Number | Comma | Colon | LParen | RParen | Newline | End

  /** `value` is the number of a `Number`, or the index N of a `Register` rN. */
  datatype Token = Token(kind: TokenKind, text: string, value: int, line: nat)

  datatype Operand =
    | RegOperand(reg: UInt8)
    | ImmOperand(imm: int)
    | LabelOperand(name: string)
    | MemOperand(disp: int, base: UInt8)

  datatype Statement =
    | LabelDef(name: string, line: nat)
    | Command(name: string, operands: seq<Operand>, line: nat)
}
