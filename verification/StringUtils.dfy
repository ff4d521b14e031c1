/** Server-side text normalisation (`src/utils/StringUtils.h`), in the "C" locale. */
module StringUtils {

  /** The characters that the two trimming calls strip. */
  predicate IsTrimChar(c: char) {
    c == ' ' || c == '\t' || c == '\n' || c == '\r'
  }

  /** `std::isspace` in the "C" locale: the trimmed characters, vertical tab and form feed. */
  predicate IsSpace(c: char) {
    IsTrimChar(c) || c == '\U{0B}' || c == '\U{0C}'
  }

  function ToLower(c: char): char {
    if 'A' <= c <= 'Z' then (c as int + 32) as char else c
  }

  function ToUpper(c: char): char {
    if 'a' <= c <= 'z' then (c as int - 32) as char else c
  }

  function LowerAll(s: string): string {
    seq(|s|, i requires 0 <= i < |s| => ToLower(s[i]))
  }

  function UpperAll(s: string): string {
    seq(|s|, i requires 0 <= i < |s| => ToUpper(s[i]))
  }

  predicate AllOf(s: string, p: char -> bool) {
    forall i | 0 <= i < |s| :: p(s[i])
  }

  /** Neither end of `s` is a character of `p`. */
  predicate CleanEnds(s: string, p: char -> bool) {
    s == "" || (!p(s[0]) && !p(s[|s| - 1]))
  }

  // ----- Trimming -----

  /** Where `find_first_not_of` stops; the length when it finds nothing. */
  function FirstNotOf(s: string, p: char -> bool): (i: nat)
    ensures i <= |s|
  {
    if s == "" || !p(s[0]) then 0 else 1 + FirstNotOf(s[1..], p)
  }

  lemma {:induction false} FirstNotOfSpec(s: string, p: char -> bool)
    ensures var i := FirstNotOf(s, p); (forall k | 0 <= k < i :: p(s[k])) && (i < |s| ==> !p(s[i]))
  {
    if s == "" || !p(s[0]) {
    } else {
      FirstNotOfSpec(s[1..], p);
      assert forall k | 0 < k < |s| :: s[k] == s[1..][k - 1];
    }
  }

  /** One past where `find_last_not_of` stops; 0 when it finds nothing. */
  function PastLastNotOf(s: string, p: char -> bool): (i: nat)
    ensures i <= |s|
  {
    if s == "" || !p(s[|s| - 1]) then |s| else PastLastNotOf(s[..|s| - 1], p)
  }

  lemma {:induction false} PastLastNotOfSpec(s: string, p: char -> bool)
    ensures var i := PastLastNotOf(s, p); (forall k | i <= k < |s| :: p(s[k])) && (i > 0 ==> !p(s[i - 1]))
  {
    if s == "" || !p(s[|s| - 1]) {
    } else {
      PastLastNotOfSpec(s[..|s| - 1], p);
    }
  }

  function TrimBy(s: string, p: char -> bool): string {
    var t := s[FirstNotOf(s, p)..];
    t[..PastLastNotOf(t, p)]
  }

  function Trim(s: string): string {
    TrimBy(s, IsTrimChar)
  }

  lemma SplitTwice(s: string, i: nat, j: nat)
    requires i <= |s| && j <= |s[i..]|
    ensures s == s[..i] + s[i..][..j] + s[i..][j..]
  {
    assert s[i..] == s[i..][..j] + s[i..][j..];
  }

  lemma TrimmedAway(s: string, p: char -> bool)
    ensures var i := FirstNotOf(s, p);
      var j := PastLastNotOf(s[i..], p);
      AllOf(s[..i], p) && AllOf(s[i..][j..], p)
  {
    var i := FirstNotOf(s, p);
    var t := s[i..];
    FirstNotOfSpec(s, p);
    PastLastNotOfSpec(t, p);
    var j := PastLastNotOf(t, p);
    forall k | 0 <= k < |t[j..]| ensures p(t[j..][k]) {
      assert t[j..][k] == t[j + k];
    }
  }

  lemma TrimmedEnds(s: string, p: char -> bool)
    ensures CleanEnds(TrimBy(s, p), p)
  {
    var i := FirstNotOf(s, p);
    var t := s[i..];
    FirstNotOfSpec(s, p);
    PastLastNotOfSpec(t, p);
    var j := PastLastNotOf(t, p);
    if j > 0 {
      assert t[..j][0] == s[i] && t[..j][j - 1] == t[j - 1];
    }
  }

  /** What trimming removes is blank and what it keeps has clean ends. */
  lemma TrimSplits(s: string, p: char -> bool) returns (a: string, b: string)
    ensures s == a + TrimBy(s, p) + b
    ensures AllOf(a, p) && AllOf(b, p) && CleanEnds(TrimBy(s, p), p)
  {
    var i := FirstNotOf(s, p);
    var j := PastLastNotOf(s[i..], p);
    a, b := s[..i], s[i..][j..];
    TrimmedAway(s, p);
    TrimmedEnds(s, p);
    SplitTwice(s, i, j);
  }

  lemma FirstNotOfIs(s: string, p: char -> bool, i: nat)
    requires i <= |s| && (forall k | 0 <= k < i :: p(s[k])) && (i < |s| ==> !p(s[i]))
    ensures FirstNotOf(s, p) == i
  {
    FirstNotOfSpec(s, p);
  }

  lemma PastLastNotOfIs(s: string, p: char -> bool, i: nat)
    requires i <= |s| && (forall k | i <= k < |s| :: p(s[k])) && (i > 0 ==> !p(s[i - 1]))
    ensures PastLastNotOf(s, p) == i
  {
    PastLastNotOfSpec(s, p);
  }

  lemma TrimBlank(s: string, p: char -> bool)
    requires AllOf(s, p)
    ensures TrimBy(s, p) == ""
  {
    FirstNotOfIs(s, p, |s|);
  }

  lemma TrimEnd(m: string, b: string, p: char -> bool)
    requires AllOf(b, p) && m != "" && !p(m[|m| - 1])
    ensures var j := PastLastNotOf(m + b, p); j == |m| && (m + b)[..j] == m
  {
    var t := m + b;
    assert t[|m| - 1] == m[|m| - 1];
    forall k | |m| <= k < |t| ensures p(t[k]) {
      assert t[k] == b[k - |m|];
    }
    PastLastNotOfIs(t, p, |m|);
  }

  /** Trimming is determined by `TrimSplits`. */
  lemma TrimUnique(a: string, m: string, b: string, p: char -> bool)
    requires AllOf(a, p) && AllOf(b, p) && CleanEnds(m, p)
    ensures TrimBy(a + m + b, p) == m
  {
    var s := a + m + b;
    forall k | 0 <= k < |a| ensures p(s[k]) {
      assert s[k] == a[k];
    }
    if m == "" {
      forall k | |a| <= k < |s| ensures p(s[k]) {
        assert s[k] == b[k - |a|];
      }
      TrimBlank(s, p);
    } else {
      assert s[|a|] == m[0] && s[|a|..] == m + b;
      FirstNotOfIs(s, p, |a|);
      TrimEnd(m, b, p);
    }
  }

  /** Trimmed text is empty exactly for blank text. */
  lemma TrimEmpty(s: string, p: char -> bool)
    ensures TrimBy(s, p) == "" <==> AllOf(s, p)
  {
    var a, b := TrimSplits(s, p);
    if TrimBy(s, p) == "" {
      assert s == a + b;
    } else {
      assert s[|a|] == TrimBy(s, p)[0];
    }
  }

  lemma TrimIdentity(s: string, p: char -> bool)
    requires CleanEnds(s, p)
    ensures TrimBy(s, p) == s
  {
    assert s == "" + s + "";
    TrimUnique("", s, "", p);
  }

  // ----- Title case and upper case -----

  /** A letter starts a word when nothing, or white space, stands before it. */
  predicate WordStart(s: string, i: nat)
    requires i < |s|
  {
    i == 0 || IsSpace(s[i - 1])
  }

  function TitleChar(s: string, i: nat): char
    requires i < |s|
  {
    if WordStart(s, i) then ToUpper(s[i]) else s[i]
  }

  /** Trimmed, lower-cased text with the first character of each word capitalised. */
  function TitleCase(s: string): string {
    var l := LowerAll(Trim(s));
    seq(|l|, i requires 0 <= i < |l| => TitleChar(l, i))
  }

  function UpperCase(s: string): string {
    UpperAll(Trim(s))
  }

  method ToTitleCase(str: string) returns (result: string)
    ensures result == TitleCase(str)
  {
    if str == "" {
      return str;
    }
    result := str;
    result := result[FirstNotOf(result, IsTrimChar)..];
    result := result[..PastLastNotOf(result, IsTrimChar)];
    result := LowerAll(result);
    result := CapitalizeWords(result);
  }

  /** The loop over the characters, with its flag. */
  method CapitalizeWords(l: string) returns (result: string)
    ensures |result| == |l| && forall k | 0 <= k < |l| :: result[k] == TitleChar(l, k)
  {
    result := l;
    var capitalizeNext := true;
    var i := 0;
    while i < |result|
      invariant i <= |result| == |l|
      invariant capitalizeNext == (i == 0 || IsSpace(l[i - 1]))
      invariant forall k | 0 <= k < i :: result[k] == TitleChar(l, k)
      invariant forall k | i <= k < |l| :: result[k] == l[k]
    {
      assert IsSpace(l[i]) ==> ToUpper(l[i]) == l[i];
      if IsSpace(result[i]) {
        capitalizeNext := true;
      } else if capitalizeNext {
        result := result[i := ToUpper(result[i])];
        capitalizeNext := false;
      }
      i := i + 1;
    }
  }

  method ToUpperCase(str: string) returns (result: string)
    ensures result == UpperCase(str)
    ensures forall c | c in result :: !('a' <= c <= 'z')
  {
    if str == "" {
      return str;
    }
    result := str;
    result := result[FirstNotOf(result, IsTrimChar)..];
    result := result[..PastLastNotOf(result, IsTrimChar)];
    result := UpperAll(result);
    assert forall i | 0 <= i < |result| :: !('a' <= result[i] <= 'z');
  }

  // ----- Both are canonical forms for "same text up to case and surrounding blanks" -----

  ghost predicate SameText(s: string, t: string) {
    LowerAll(Trim(s)) == LowerAll(Trim(t))
  }

  lemma CaseOfLetter(c: char)
    ensures ToLower(ToUpper(c)) == ToLower(c) && ToUpper(ToLower(c)) == ToUpper(c)
    ensures ToLower(ToLower(c)) == ToLower(c)
    ensures IsSpace(ToUpper(c)) == IsSpace(c) == IsSpace(ToLower(c))
    ensures IsTrimChar(ToUpper(c)) == IsTrimChar(c) == IsTrimChar(ToLower(c))
  {
  }

  /** Title case changes only the case, so lower-casing it gives back the key. */
  lemma TitleKeepsLetters(s: string)
    ensures LowerAll(TitleCase(s)) == LowerAll(Trim(s))
    ensures Trim(TitleCase(s)) == TitleCase(s)
  {
    var t, r := Trim(s), TitleCase(s);
    forall i | 0 <= i < |t| ensures ToLower(r[i]) == ToLower(t[i]) && IsTrimChar(r[i]) == IsTrimChar(t[i]) {
      CaseOfLetter(t[i]);
      CaseOfLetter(ToLower(t[i]));
    }
    var _, _ := TrimSplits(s, IsTrimChar);
    TrimIdentity(r, IsTrimChar);
  }

  lemma UpperKeepsLetters(s: string)
    ensures LowerAll(UpperCase(s)) == LowerAll(Trim(s))
    ensures Trim(UpperCase(s)) == UpperCase(s)
  {
    var t, r := Trim(s), UpperCase(s);
    forall i | 0 <= i < |t| ensures ToLower(r[i]) == ToLower(t[i]) && IsTrimChar(r[i]) == IsTrimChar(t[i]) {
      CaseOfLetter(t[i]);
    }
    var _, _ := TrimSplits(s, IsTrimChar);
    TrimIdentity(r, IsTrimChar);
  }

  lemma TitleCaseCanonical(s: string, t: string)
    ensures TitleCase(s) == TitleCase(t) <==> SameText(s, t)
  {
    TitleKeepsLetters(s);
    TitleKeepsLetters(t);
  }

  lemma TitleCaseIdempotent(s: string)
    ensures TitleCase(TitleCase(s)) == TitleCase(s)
    ensures TitleCase(s) == "" <==> AllOf(s, IsTrimChar)
  {
    TitleKeepsLetters(s);
    TrimEmpty(s, IsTrimChar);
  }

  lemma UpperFromLower(s: string)
    ensures UpperAll(LowerAll(s)) == UpperAll(s)
  {
    forall i | 0 <= i < |s| ensures ToUpper(ToLower(s[i])) == ToUpper(s[i]) {
      CaseOfLetter(s[i]);
    }
  }

  lemma UpperCaseCanonical(s: string, t: string)
    ensures UpperCase(s) == UpperCase(t) <==> SameText(s, t)
  {
    UpperKeepsLetters(s);
    UpperKeepsLetters(t);
    UpperFromLower(Trim(s));
    UpperFromLower(Trim(t));
  }

  lemma UpperCaseIdempotent(s: string)
    ensures UpperCase(UpperCase(s)) == UpperCase(s)
    ensures UpperCase(s) == "" <==> AllOf(s, IsTrimChar)
  {
    UpperKeepsLetters(s);
    UpperFromLower(Trim(s));
    UpperFromLower(UpperCase(s));
    TrimEmpty(s, IsTrimChar);
  }

  // ----- What the server makes of a text, character by character -----

  /** `m` is what is left of `s` between the blanks at its ends. */
  ghost predicate Between(s: string, a: string, m: string, b: string, blanks: string) {
    && s == a + m + b
    && (forall i | 0 <= i < |a| :: a[i] in blanks) && (forall i | 0 <= i < |b| :: b[i] in blanks)
    && (m != "" ==> m[0] !in blanks && m[|m| - 1] !in blanks)
  }

  /** Upper case: blanks at the ends go, and of the rest the small letters become capital ones. */
  lemma UpperCaseIs(s: string) returns (a: string, m: string, b: string)
    ensures Between(s, a, m, b, " \t\n\r") && |UpperCase(s)| == |m|
    ensures forall i | 0 <= i < |m| ::
      UpperCase(s)[i] == if 'a' <= m[i] <= 'z' then (m[i] as int - 32) as char else m[i]
  {
    a, b := TrimSplits(s, IsTrimChar);
    m := Trim(s);
  }

  /** Title case: blanks at the ends go, a letter at the beginning or after white space becomes a
      capital one, and every other letter a small one. */
  lemma TitleCaseIs(s: string) returns (a: string, m: string, b: string)
    ensures Between(s, a, m, b, " \t\n\r") && |TitleCase(s)| == |m|
    ensures forall i | 0 <= i < |m| ::
      TitleCase(s)[i] ==
        if i == 0 || m[i - 1] in " \t\n\r\U{0B}\U{0C}" then
          if 'a' <= m[i] <= 'z' then (m[i] as int - 32) as char else m[i]
        else if 'A' <= m[i] <= 'Z' then (m[i] as int + 32) as char else m[i]
  {
    a, b := TrimSplits(s, IsTrimChar);
    m := Trim(s);
    forall i | 0 <= i < |m|
      ensures TitleCase(s)[i] ==
        if i == 0 || m[i - 1] in " \t\n\r\U{0B}\U{0C}" then
          if 'a' <= m[i] <= 'z' then (m[i] as int - 32) as char else m[i]
        else if 'A' <= m[i] <= 'Z' then (m[i] as int + 32) as char else m[i]
    {
      assert TitleCase(s)[i] == TitleChar(LowerAll(m), i);
      if i > 0 {
        CaseOfLetter(m[i - 1]);
      }
    }
  }
}
