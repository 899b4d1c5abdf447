/** Python's `str.capitalize`, restricted to ASCII letters: the only letters
    that occur in category keys. */
module PyCase {

  /** ASCII upper- and lower-casing; other characters are left alone. */
  function Upper(c: char): char {
    if 'a' <= c <= 'z' then (c as int - 32) as char else c
  }

  function Lower(c: char): char {
    if 'A' <= c <= 'Z' then (c as int + 32) as char else c
  }

  /** `s.lower()`, for ASCII letters. */
  function LowerAll(s: string): (r: string)
    ensures |r| == |s|
  {
    seq(|s|, i requires 0 <= i < |s| => Lower(s[i]))
  }

  /** `s.capitalize()`, for ASCII letters: first character upper case, the rest lower case. */
  function Capitalize(s: string): (r: string)
    ensures |r| == |s|
    ensures |s| > 0 ==> r[0] == Upper(s[0])
    ensures forall i | 1 <= i < |s| :: r[i] == Lower(s[i])
  {
    if |s| == 0 then "" else [Upper(s[0])] + LowerAll(s[1..])
  }

  /** `capitalize` only changes letter case, and applying it twice is the same as once. */
  lemma CapitalizeKeepsLetters(s: string)
    ensures LowerAll(Capitalize(s)) == LowerAll(s)
    ensures Capitalize(Capitalize(s)) == Capitalize(s)
  {
  }
}
