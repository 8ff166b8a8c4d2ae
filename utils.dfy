/** `clamp` and `capitalize` from the library's utilities (src/utils/index.ts). */
module Utils {

  function Min(a: int, b: int): (m: int) { if a <= b then a else b }
  function Max(a: int, b: int): (m: int) { if a >= b then a else b }

  /** `value` pulled into the range from `min` to `max`; when `min > max` the upper bound wins. */
  function Clamp(value: int, min: int, max: int): (r: int)
    ensures r <= max
    ensures min <= max ==> min <= r
    ensures min <= value <= max ==> r == value
    ensures r == value || r == min || r == max
    ensures min > max ==> r == max
  {
    Min(Max(value, min), max)
  }

  /** For a valid range the clamped value is the point of the range nearest to `value`. */
  lemma ClampIsNearest(value: int, min: int, max: int, y: int)
    requires min <= max && min <= y <= max
    ensures min <= Clamp(value, min, max) <= max
    ensures Max(Clamp(value, min, max) - value, value - Clamp(value, min, max)) <= Max(y - value, value - y)
  {
  }

  /** Clamping twice is clamping once, for every range, an empty one included. */
  lemma ClampIdempotent(value: int, min: int, max: int)
    ensures Clamp(Clamp(value, min, max), min, max) == Clamp(value, min, max)
  {
  }

  predicate IsAsciiLower(c: char) { 'a' <= c <= 'z' }
  predicate IsAsciiUpper(c: char) { 'A' <= c <= 'Z' }

  /** `toUpperCase` on one character, for the ASCII letters only. */
  function UpperAscii(c: char): (u: char)
    ensures IsAsciiLower(c) ==> IsAsciiUpper(u) && u as int == c as int - 32
    ensures !IsAsciiLower(c) ==> u == c
  {
    if IsAsciiLower(c) then (c as int - 32) as char else c
  }

  /** The string with its first character upper-cased and the rest kept as it is. */
  function Capitalize(s: string): (r: string)
    ensures |r| == |s|
    ensures s != [] ==> r[0] == UpperAscii(s[0]) && r[1..] == s[1..]
  {
    if s == [] then "" else [UpperAscii(s[0])] + s[1..]
  }

  /** A string that does not start with a lower-case letter is its own capitalization; so capitalizing twice is capitalizing once. */
  lemma CapitalizeFixedPoints(s: string)
    ensures s == [] || !IsAsciiLower(s[0]) ==> Capitalize(s) == s
    ensures Capitalize(Capitalize(s)) == Capitalize(s)
  {
    if s != [] {
      assert s == [s[0]] + s[1..];
    }
  }
}
