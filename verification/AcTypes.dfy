/** Values shared by the string matcher: the alphabet, patterns, matches and status codes. */
module AcTypes {

  /** `char` on the target: a signed byte, so `<` below is the signed comparison of the source. */
  newtype Alpha = x: int | -128 <= x < 128

  type Word = seq<Alpha>

  /** Longest pattern that may be added (AC_PATTRN_MAX_LENGTH). */
  const MAX_PATTERN_LENGTH: nat := 1024

  /** A pattern with the private data the router reads back from a match. */
  datatype Pattern = Pattern(ptext: Word, id: int, itemid: nat, idx: nat)

  /** A match: the patterns that end at `position`. No patterns is the "nothing found" answer. */
  datatype Match = Match(patterns: seq<Pattern>, position: nat)

  datatype Status = Success | DuplicatePattern | LongPattern | ZeroPattern | TrieClosed

  datatype WorkingMode = SearchMode | FindNextMode
}
