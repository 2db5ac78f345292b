/** What several models share. */
module Common {

  datatype Option<+T> = None | Some(value: T)

  /** The machine width of sizes and counters (64-bit targets). */
  const USIZE_MAX: nat := 0xFFFF_FFFF_FFFF_FFFF

  predicate HasSuffix(s: string, suffix: string) {
    |suffix| <= |s| && s[|s| - |suffix|..] == suffix
  }

  /** A character of an ASCII identifier. */
  predicate IsWordChar(c: char) {
    'a' <= c <= 'z' || 'A' <= c <= 'Z' || '0' <= c <= '9' || c == '_'
  }

  predicate NoDuplicates<T(==)>(xs: seq<T>) {
    forall i, j | 0 <= i < j < |xs| :: xs[i] != xs[j]
  }
}
