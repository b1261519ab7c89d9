/**
 * The two string operations the script applies to user input: `str.lower()`
 * and `str.title()`, restricted to ASCII letters.
 */
module Text {

  predicate IsUpper(c: char) { 'A' <= c <= 'Z' }

  predicate IsLower(c: char) { 'a' <= c <= 'z' }

  predicate IsLetter(c: char) { IsUpper(c) || IsLower(c) }

  function ToLowerChar(c: char): (r: char)
    ensures !IsUpper(r)
    ensures IsLetter(r) <==> IsLetter(c)
    ensures !IsUpper(c) ==> r == c
  {
    if IsUpper(c) then (c as int + 32) as char else c
  }

  function ToUpperChar(c: char): (r: char)
    ensures !IsLower(r)
    ensures IsLetter(r) <==> IsLetter(c)
    ensures ToLowerChar(r) == ToLowerChar(c)
  {
    if IsLower(c) then (c as int - 32) as char else c
  }

  /** `s.lower()`. */
  function Lower(s: string): string
  {
    if s == [] then [] else [ToLowerChar(s[0])] + Lower(s[1..])
  }

  /** Lower-casing keeps the length and the letters and leaves no letter in upper case. */
  lemma {:induction false} LowerCases(s: string)
    ensures |Lower(s)| == |s|
    ensures forall i :: 0 <= i < |s| ==> !IsUpper(Lower(s)[i]) && ToLowerChar(Lower(s)[i]) == ToLowerChar(s[i])
  {
    if s != [] {
      LowerCases(s[1..]);
      assert forall i :: 1 <= i < |s| ==> Lower(s)[i] == Lower(s[1..])[i - 1];
    }
  }

  /** Lower-casing twice is lower-casing once. */
  lemma {:induction false} LowerIdempotent(s: string)
    ensures Lower(Lower(s)) == Lower(s)
  {
    if s != [] {
      LowerIdempotent(s[1..]);
      assert Lower(s)[1..] == Lower(s[1..]);
    }
  }

  /**
   * `s.title()`: a letter becomes upper case when it starts a word (it is the
   * first character or follows a character that is not a letter) and lower
   * case otherwise; other characters stay as they are.
   */
  function Title(s: string): string
  {
    seq(|s|, i requires 0 <= i < |s| => if i > 0 && IsLetter(s[i - 1]) then ToLowerChar(s[i]) else ToUpperChar(s[i]))
  }

  /** Title-casing keeps the letters and puts exactly the first letter of each word in upper case. */
  lemma TitleCases(s: string)
    ensures |Title(s)| == |s|
    ensures forall i :: 0 <= i < |s| ==> ToLowerChar(Title(s)[i]) == ToLowerChar(s[i])
    ensures forall i :: 0 <= i < |s| && IsLetter(s[i]) ==> (IsUpper(Title(s)[i]) <==> (i == 0 || !IsLetter(s[i - 1])))
  {
    var t := Title(s);
    forall i | 0 <= i < |s|
      ensures ToLowerChar(t[i]) == ToLowerChar(s[i])
      ensures IsLetter(s[i]) ==> (IsUpper(t[i]) <==> (i == 0 || !IsLetter(s[i - 1])))
    {
      if i > 0 && IsLetter(s[i - 1]) {
        assert t[i] == ToLowerChar(s[i]);
      } else {
        assert t[i] == ToUpperChar(s[i]);
      }
    }
  }

  /** Title-casing depends only on the letters, not on their case. */
  lemma TitleIgnoresCase(s: string)
    ensures Title(Lower(s)) == Title(s)
  {
    var l := Lower(s);
    LowerCases(s);
    forall i | 0 <= i < |s| ensures Title(l)[i] == Title(s)[i] {
      if i > 0 {
        assert IsLetter(l[i - 1]) <==> IsLetter(s[i - 1]) by {
          assert ToLowerChar(l[i - 1]) == ToLowerChar(s[i - 1]);
        }
      }
      assert ToLowerChar(l[i]) == ToLowerChar(s[i]);
    }
  }
}
