/**
 * The identifier format shared by the server and the browser client: a
 * MongoDB ObjectId written as 24 hexadecimal characters.
 */
module ObjectId {
  predicate IsHexDigit(c: char) {
    ('0' <= c <= '9') || ('a' <= c <= 'f') || ('A' <= c <= 'F')
  }

  const ObjectIdLength := 24

  /** An identifier in its 24-character hexadecimal form. */
  predicate HexId(id: string) {
    |id| == ObjectIdLength && forall i :: 0 <= i < |id| ==> IsHexDigit(id[i])
  }
}
