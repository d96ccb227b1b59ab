/** Character classes and pattern matching shared by the two source-rewriting scripts. */
module Text {

  /** The characters matched by `\s` in a Python `str` pattern, and stripped by `str.strip()`. */
  predicate IsSpace(c: char) {
    || '\t' <= c <= '\r'
    || '\U{1C}' <= c <= ' '
    || c == '\U{85}' || c == '\U{A0}' || c == '\U{1680}'
    || '\U{2000}' <= c <= '\U{200A}'
    || c == '\U{2028}' || c == '\U{2029}' || c == '\U{202F}' || c == '\U{205F}' || c == '\U{3000}'
  }

  /** ASCII lower-casing: what IGNORECASE amounts to for the letters of the patterns used here. */
  function FoldCase(c: char): char {
    if 'A' <= c <= 'Z' then c + 32 as char else c
  }

  /** How a pattern compares characters: as they are, or under IGNORECASE. */
  datatype Mode = Exact | IgnoreCase

  function Norm(mode: Mode, c: char): char {
    if mode.Exact? then c else FoldCase(c)
  }

  /** The word `w` stands in `s` at `i`. */
  predicate WordAt(mode: Mode, s: string, i: nat, w: string) {
    i + |w| <= |s| && forall k {:trigger w[k]} :: 0 <= k < |w| ==> Norm(mode, s[i + k]) == w[k]
  }
}
