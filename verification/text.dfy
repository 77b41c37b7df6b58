/** ASCII letter casing (Python's `str.upper`, `str.lower`, `str.title`), joining and
    searching over strings. Characters outside `A`-`Z` and `a`-`z` are never changed. */
module Text {

  predicate IsUpperChar(c: char) { 'A' <= c <= 'Z' }

  predicate IsLowerChar(c: char) { 'a' <= c <= 'z' }

  predicate IsLetter(c: char) { IsUpperChar(c) || IsLowerChar(c) }

  function UpperChar(c: char): char {
    if IsLowerChar(c) then (c as int - 32) as char else c
  }

  function LowerChar(c: char): char {
    if IsUpperChar(c) then (c as int + 32) as char else c
  }

  /** `s.upper()` */
  function ToUpper(s: string): string {
    seq(|s|, i requires 0 <= i < |s| => UpperChar(s[i]))
  }

  /** `s.lower()` */
  function ToLower(s: string): string {
    seq(|s|, i requires 0 <= i < |s| => LowerChar(s[i]))
  }

  /** True when the string holds an upper-case ASCII letter. */
  predicate HasUpper(s: string) {
    exists i :: 0 <= i < |s| && IsUpperChar(s[i])
  }

  /** `s.title()`: a letter that starts the string or follows a non-letter is
      upper-cased, every other letter is lower-cased. */
  function ToTitle(s: string): (r: string)
    ensures |r| == |s|
    ensures forall i :: 0 <= i < |s| ==>
      r[i] == (if i == 0 || !IsLetter(s[i - 1]) then UpperChar(s[i]) else LowerChar(s[i]))
  {
    TitleFrom(s, false)
  }

  /** The scan behind `ToTitle`: `afterLetter` says whether the character before `s`
      was a letter. */
  function TitleFrom(s: string, afterLetter: bool): (r: string)
    ensures |r| == |s|
    ensures forall i :: 0 <= i < |s| ==>
      r[i] == (if (if i == 0 then afterLetter else IsLetter(s[i - 1])) then LowerChar(s[i]) else UpperChar(s[i]))
  {
    if s == [] then []
    else [if afterLetter then LowerChar(s[0]) else UpperChar(s[0])] + TitleFrom(s[1..], IsLetter(s[0]))
  }

  function UpperEach(words: seq<string>): (r: seq<string>)
    ensures |r| == |words|
  {
    seq(|words|, i requires 0 <= i < |words| => ToUpper(words[i]))
  }

  function LowerEach(words: seq<string>): (r: seq<string>)
    ensures |r| == |words|
  {
    seq(|words|, i requires 0 <= i < |words| => ToLower(words[i]))
  }

  function TitleEach(words: seq<string>): (r: seq<string>)
    ensures |r| == |words|
  {
    seq(|words|, i requires 0 <= i < |words| => ToTitle(words[i]))
  }

  /** `''.join(parts)` */
  function Concat(parts: seq<string>): string {
    if parts == [] then "" else parts[0] + Concat(parts[1..])
  }

  /** `sep.join(parts)` */
  function Join(sep: string, parts: seq<string>): string {
    if parts == [] then ""
    else if |parts| == 1 then parts[0]
    else parts[0] + sep + Join(sep, parts[1..])
  }

  /** `s.rfind(c)`: the index of the last occurrence of `c`, or -1. */
  function RFind(s: string, c: char): (r: int)
    ensures -1 <= r < |s|
    ensures r >= 0 ==> s[r] == c
    ensures forall j :: r < j < |s| ==> s[j] != c
  {
    if s == [] then -1
    else if s[|s| - 1] == c then |s| - 1
    else RFind(s[..|s| - 1], c)
  }

  // Case-mapping facts used by the naming proofs.

  lemma LowerOfCaseChanges(s: string)
    ensures ToLower(ToUpper(s)) == ToLower(s)
    ensures ToLower(ToLower(s)) == ToLower(s)
    ensures ToLower(ToTitle(s)) == ToLower(s)
    ensures ToUpper(ToTitle(s)) == ToUpper(s)
    ensures |ToUpper(s)| == |s| && |ToLower(s)| == |s|
  {
    var t := ToTitle(s);
    forall i | 0 <= i < |s|
      ensures LowerChar(t[i]) == LowerChar(s[i]) && UpperChar(t[i]) == UpperChar(s[i])
    {
      assert t[i] == (if i == 0 || !IsLetter(s[i - 1]) then UpperChar(s[i]) else LowerChar(s[i]));
      CaseCharFacts(s[i]);
    }
    forall i | 0 <= i < |s|
      ensures LowerChar(UpperChar(s[i])) == LowerChar(s[i]) && LowerChar(LowerChar(s[i])) == LowerChar(s[i])
    {
      CaseCharFacts(s[i]);
    }
    assert ToLower(t) == ToLower(s);
    assert ToUpper(t) == ToUpper(s);
  }

  lemma UpperOfCaseChanges(s: string)
    ensures ToUpper(ToLower(s)) == ToUpper(s)
    ensures ToUpper(ToUpper(s)) == ToUpper(s)
  {
    forall i | 0 <= i < |s|
      ensures UpperChar(LowerChar(s[i])) == UpperChar(s[i]) && UpperChar(UpperChar(s[i])) == UpperChar(s[i])
    {
      CaseCharFacts(s[i]);
    }
  }

  lemma CaseCharFacts(c: char)
    ensures LowerChar(UpperChar(c)) == LowerChar(c) && LowerChar(LowerChar(c)) == LowerChar(c)
    ensures UpperChar(LowerChar(c)) == UpperChar(c) && UpperChar(UpperChar(c)) == UpperChar(c)
    ensures !IsUpperChar(LowerChar(c)) && !IsLowerChar(UpperChar(c))
  {
  }

  lemma LowerAppend(a: string, b: string)
    ensures ToLower(a + b) == ToLower(a) + ToLower(b)
  {
  }

  lemma {:induction false} LowerConcat(parts: seq<string>)
    ensures ToLower(Concat(parts)) == Concat(LowerEach(parts))
  {
    if parts != [] {
      LowerConcat(parts[1..]);
      LowerAppend(parts[0], Concat(parts[1..]));
      assert LowerEach(parts)[1..] == LowerEach(parts[1..]);
    }
  }

  lemma {:induction false} LowerJoin(sep: string, parts: seq<string>)
    requires ToLower(sep) == sep
    ensures ToLower(Join(sep, parts)) == Join(sep, LowerEach(parts))
  {
    if |parts| > 1 {
      LowerJoin(sep, parts[1..]);
      LowerAppend(parts[0] + sep, Join(sep, parts[1..]));
      LowerAppend(parts[0], sep);
      assert LowerEach(parts)[1..] == LowerEach(parts[1..]);
    }
  }

  /** A lower-cased string never contains an upper-case letter. */
  lemma LowerHasNoUpper(s: string)
    ensures !HasUpper(ToLower(s))
  {
  }
}
