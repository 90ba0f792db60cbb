/** Token kinds, positions and tokens of the .api language. */
module Tokens {

  /** `NONE` is the zero value, `ERROR` the kind of the token that comes with a scanner error. */
  datatype Kind =
    | NONE | ERROR | ILLEGAL | EOF | COMMENT | DOCUMENT
    | IDENT | INT | DURATION | STRING | RAW_STRING | PATH | KEY
    | SUB | MUL | QUO | ASSIGN
    | LPAREN | LBRACK | LBRACE | COMMA | DOT
    | RPAREN | RBRACE | RBRACK | SEMICOLON | COLON | ELLIPSIS
    | AT_DOC | AT_HANDLER | AT_SERVER | ANY

  /** A rune position: line counted from one, column counted from one. */
  datatype Position = Position(file: string, line: int, column: int)

  const NO_POSITION := Position("", 0, 0)

  /** Lexicographic order of two positions of one file. */
  predicate Before(p: Position, q: Position) {
    p.line < q.line || (p.line == q.line && p.column < q.column)
  }

  datatype Token = Token(kind: Kind, text: string, position: Position)

  const NO_TOKEN := Token(NONE, "", NO_POSITION)
  const EOF_TOKEN := Token(EOF, "", NO_POSITION)
  const ERROR_TOKEN := Token(ERROR, "", NO_POSITION)

  predicate IsComment(t: Token) {
    t.kind == COMMENT || t.kind == DOCUMENT
  }

  /** The Go keywords, which an identifier of the .api language may not be. */
  predicate IsKeyword(text: string) {
    text in {
      "break", "case", "chan", "const", "continue", "default", "defer", "else", "fallthrough", "for", "func", "go",
      "goto", "if", "import", "interface", "map", "package", "range", "return", "select", "struct", "switch", "type",
      "var"
    }
  }

  /** The names of the built-in types. */
  predicate IsBaseType(text: string) {
    text in {
      "bool", "int", "int8", "int16", "int32", "int64", "uint", "uint8", "uint16", "uint32", "uint64", "uintptr",
      "float32", "float64", "complex64", "complex128", "string", "byte", "rune", "any"
    }
  }
}
