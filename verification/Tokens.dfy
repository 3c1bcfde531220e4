/** Tokens as the lexer makes them and the parser reads them (cero/syntax/token.hh, token.cc). */
module Tokens {

  /** Offsets are stored in 24 bits; see `source_size_bits`. */
  const SOURCE_SIZE_LIMIT := 0x100_0000

  type Offset = x: int | 0 <= x < SOURCE_SIZE_LIMIT

  datatype TokenKind =
    // variable-length tokens
    | Identifier | LineComment | BlockComment
    | DecIntLiteral | HexIntLiteral | BinIntLiteral | OctIntLiteral | FloatLiteral | CharLiteral | StringLiteral
    // keywords
    | KwBreak | KwCatch | KwConst | KwContinue | KwDo | KwElse | KwEnum | KwFor | KwIf | KwIn | KwInterface | KwLet
    | KwMut | KwPrivate | KwPublic | KwRaise | KwReturn | KwStatic | KwStruct | KwSwitch | KwTry | KwUnchecked | KwWhile
    // one-character tokens
    | Dot | Comma | Colon | Semicolon | LBrace | RBrace | LParen | RParen | LBracket | RBracket | LAngle | RAngle
    | Eq | Plus | Minus | Star | Slash | Percent | Ampersand | Pipe | Tilde | Caret | Bang
    // two-character tokens
    | ThinArrow | ThickArrow | ColonColon | PlusPlus | MinusMinus | LAngleAngle | AndAnd | PipePipe | EqEq | BangEq
    | LAngleEq | RAngleEq | PlusEq | MinusEq | StarEq | SlashEq | PercentEq | AmpersandEq | PipeEq | TildeEq
    // three-character tokens
    | LAngleAngleEq | RAngleAngleEq | AndAndEq | PipePipeEq
    | EndOfFile

  /** `length` is set for the variable-length kinds only and is 0 for all others. */
  datatype Token = Token(kind: TokenKind, offset: Offset, length: nat)

  predicate IsComment(kind: TokenKind) {
    kind == LineComment || kind == BlockComment
  }

  /** What the token cursor relies on: the end-of-file token is the last token and the only one of its kind. */
  ghost predicate EndsInOnlyEndOfFile(tokens: seq<Token>) {
    && |tokens| > 0
    && tokens[|tokens| - 1].kind == EndOfFile
    && forall k :: 0 <= k < |tokens| - 1 ==> tokens[k].kind != EndOfFile
  }

  /** What the parser relies on beside that: no identifier directly behind an identifier is empty. A parameter name
      stands behind an identifier, its type. */
  ghost predicate NamesNotEmpty(tokens: seq<Token>) {
    forall k :: 0 < k < |tokens| && tokens[k].kind == Identifier && tokens[k].length == 0 ==>
      tokens[k - 1].kind != Identifier
  }
}
