/** The byte predicates of util.rs, and the error values of error.rs. */
module ByteClasses {
  import opened Octets

  predicate IsForbidden(b: byte) {
    b == NUL || b == CR || b == LF
  }

  predicate IsTagKeyByte(b: byte) {
    IsLetter(b) || IsDigit(b) || b == MINUS || b == UNDERSCORE || b == DOT || b == SLASH
  }

  predicate IsTagValueByte(b: byte) {
    b != NUL && b != CR && b != LF && b != SPACE && b != SEMICOLON && b != BACKSLASH
  }

  predicate IsMiddleFirst(b: byte) {
    b != NUL && b != CR && b != LF && b != SPACE && b != COLON
  }

  predicate IsMiddleRest(b: byte) {
    b != NUL && b != CR && b != LF && b != SPACE
  }

  datatype ParseError =
    | Empty
    | Forbidden(at: nat)
    | MissingSpace(at: nat)
    | UnexpectedEnd
    | InvalidTagKey(at: nat)
    | InvalidTagEscape(at: nat)
    | InvalidCommand(at: nat)
    | InvalidPrefix(at: nat)
    | TooManyParams(at: nat)

  /** No NUL, CR or LF. */
  predicate Clean(s: Bytes) {
    forall k :: 0 <= k < |s| ==> !IsForbidden(s[k])
  }
}
