/** Character helpers shared by the finder and the board: ASCII case folding
    and the ASCII letter class, as Ruby's `String#upcase` and `/[A-Z]/i` see them. */
module Text {

  predicate IsLower(c: char) { 'a' <= c <= 'z' }

  predicate IsUpper(c: char) { 'A' <= c <= 'Z' }

  /** An ASCII letter of either case. */
  predicate IsAsciiLetter(c: char) { IsLower(c) || IsUpper(c) }

  /** Upper-cases an ASCII lower-case letter and leaves every other character alone. */
  function UpcaseChar(c: char): (u: char)
    ensures IsLower(c) ==> IsUpper(u) && u as int - 'A' as int == c as int - 'a' as int
    ensures !IsLower(u)
    ensures !IsLower(c) ==> u == c
    ensures IsAsciiLetter(u) <==> IsAsciiLetter(c)
  {
    if IsLower(c) then (c as int - 32) as char else c
  }

  /** Upper-cases every character of a string. */
  function Upcase(s: string): (u: string)
    ensures |u| == |s|
    ensures forall i :: 0 <= i < |s| ==> u[i] == UpcaseChar(s[i]) && !IsLower(u[i])
  {
    seq(|s|, i requires 0 <= i < |s| => UpcaseChar(s[i]))
  }

  /** Upper-casing is idempotent. */
  lemma UpcaseIdempotent(s: string)
    ensures Upcase(Upcase(s)) == Upcase(s)
  {
  }
}
