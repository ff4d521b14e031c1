/** Client-side text normalisation (`normalizeText`, `normalizeUpperCase` in `src/frontend/add-car.js`). */
module ClientText {
  import opened StringUtils

  /** `String.prototype.trim` on ASCII text. */
  function JsTrim(s: string): string {
    TrimBy(s, IsSpace)
  }

  /** `split(' ')`: the pieces between single spaces, empty pieces included. */
  function Split(s: string): (ws: seq<string>)
    ensures ws != []
  {
    if s == "" then [""]
    else
      var ws := Split(s[1..]);
      if s[0] == ' ' then [""] + ws else [[s[0]] + ws[0]] + ws[1..]
  }

  /** `w.charAt(0).toUpperCase() + w.slice(1)` */
  function Capitalize(w: string): string {
    if w == "" then "" else [ToUpper(w[0])] + w[1..]
  }

  function CapitalizeEach(ws: seq<string>): seq<string> {
    if ws == [] then [] else [Capitalize(ws[0])] + CapitalizeEach(ws[1..])
  }

  /** `join(' ')` */
  function Join(ws: seq<string>): string {
    if ws == [] then "" else if |ws| == 1 then ws[0] else ws[0] + " " + Join(ws[1..])
  }

  function NormalizeText(text: string): string {
    if text == "" then "" else Join(CapitalizeEach(Split(LowerAll(JsTrim(text)))))
  }

  function NormalizeUpperCase(text: string): string {
    if text == "" then "" else UpperAll(JsTrim(text))
  }

  // ----- Splitting, capitalising and joining is a single scan -----

  function ScanChar(s: string, i: nat, start: bool): char
    requires i < |s|
  {
    if (i == 0 && start) || (i > 0 && s[i - 1] == ' ') then ToUpper(s[i]) else s[i]
  }

  /** Capitalise the first character, when `start` holds, and every character after a space. */
  function AfterSpaces(s: string, start: bool): (r: string)
    ensures |r| == |s|
    ensures forall i | 0 <= i < |s| :: r[i] == ScanChar(s, i, start)
  {
    if s == "" then "" else
      [if start then ToUpper(s[0]) else s[0]] + AfterSpaces(s[1..], s[0] == ' ')
  }

  lemma PrependOne(c: char, w: string, rest: string)
    ensures [c] + w + " " + rest == [c] + (w + " " + rest)
  {
  }

  lemma JoinPrepend(c: char, ws: seq<string>)
    requires ws != []
    ensures Join([[c] + ws[0]] + ws[1..]) == [c] + Join(ws)
  {
    var first, tail := [c] + ws[0], ws[1..];
    var longer := [first] + tail;
    assert longer[0] == first && longer[1..] == tail;
    if tail == [] {
      assert ws == [ws[0]] && longer == [first];
    } else {
      PrependOne(c, ws[0], Join(tail));
    }
  }

  lemma JoinBlank(ws: seq<string>)
    requires ws != []
    ensures Join([""] + ws) == " " + Join(ws)
  {
    assert ([""] + ws)[1..] == ws;
  }

  lemma {:induction false} SplitMapJoin(s: string)
    ensures Join(CapitalizeEach(Split(s))) == AfterSpaces(s, true)
    ensures Join([Split(s)[0]] + CapitalizeEach(Split(s)[1..])) == AfterSpaces(s, false)
  {
    if s == "" {
    } else {
      SplitMapJoin(s[1..]);
      var c, ws := s[0], Split(s[1..]);
      var tail := CapitalizeEach(ws[1..]);
      if c == ' ' {
        assert Split(s)[1..] == ws;
        JoinBlank(CapitalizeEach(ws));
      } else {
        assert Split(s)[1..] == ws[1..];
        var rest := [ws[0]] + tail;
        assert rest[1..] == tail;
        JoinPrepend(c, rest);
        JoinPrepend(ToUpper(c), rest);
        assert ([c] + ws[0])[1..] == ws[0];
      }
    }
  }

  /** Changing the case of trimmed text leaves its letters and its clean ends. */
  lemma RecasedText(n: string, t: string)
    requires |n| == |t| && CleanEnds(t, IsSpace)
    requires forall i | 0 <= i < |t| :: n[i] == ToLower(t[i]) || n[i] == ToUpper(ToLower(t[i])) || n[i] == ToUpper(t[i])
    ensures LowerAll(n) == LowerAll(t)
    ensures CleanEnds(n, IsSpace) && Trim(n) == n
  {
    forall i | 0 <= i < |t| ensures ToLower(n[i]) == ToLower(t[i]) && IsSpace(n[i]) == IsSpace(t[i]) {
      CaseOfLetter(t[i]);
      CaseOfLetter(ToLower(t[i]));
    }
    TrimIdentity(n, IsTrimChar);
  }

  lemma ScanRecases(t: string)
    ensures var n := AfterSpaces(LowerAll(t), true);
      forall i | 0 <= i < |t| :: n[i] == ToLower(t[i]) || n[i] == ToUpper(ToLower(t[i]))
  {
    var l := LowerAll(t);
    var n := AfterSpaces(l, true);
    forall i | 0 <= i < |t| ensures n[i] == ToLower(t[i]) || n[i] == ToUpper(ToLower(t[i])) {
      assert n[i] == ScanChar(l, i, true) && l[i] == ToLower(t[i]);
    }
  }

  /** The client's result, character by character. */
  lemma NormalizeTextScan(s: string)
    ensures NormalizeText(s) == AfterSpaces(LowerAll(JsTrim(s)), true)
    ensures LowerAll(NormalizeText(s)) == LowerAll(JsTrim(s))
    ensures CleanEnds(NormalizeText(s), IsSpace) && Trim(NormalizeText(s)) == NormalizeText(s)
  {
    var t := JsTrim(s);
    var n := AfterSpaces(LowerAll(t), true);
    if s == "" {
      assert t == "" && n == "";
    }
    SplitMapJoin(LowerAll(t));
    var _, _ := TrimSplits(s, IsSpace);
    ScanRecases(t);
    RecasedText(n, t);
  }

  lemma NormalizeUpperCaseScan(s: string)
    ensures NormalizeUpperCase(s) == UpperAll(JsTrim(s))
    ensures LowerAll(NormalizeUpperCase(s)) == LowerAll(JsTrim(s))
    ensures CleanEnds(NormalizeUpperCase(s), IsSpace) && Trim(NormalizeUpperCase(s)) == NormalizeUpperCase(s)
  {
    var t, n := JsTrim(s), UpperAll(JsTrim(s));
    if s == "" {
      assert t == "" && n == "";
    }
    var _, _ := TrimSplits(s, IsSpace);
    RecasedText(n, t);
  }

  lemma Regroup(a: string, c: string, m: string, d: string, b: string)
    ensures a + (c + m + d) + b == (a + c) + m + (d + b)
  {
  }

  lemma BlankEnds(a: string, c: string)
    requires AllOf(a, IsTrimChar) && AllOf(c, IsSpace)
    ensures AllOf(a + c, IsSpace) && AllOf(c + a, IsSpace)
  {
    forall i | 0 <= i < |a + c| ensures IsSpace((a + c)[i]) && IsSpace((c + a)[i]) {
      assert (a + c)[i] == if i < |a| then a[i] else c[i - |a|];
      assert (c + a)[i] == if i < |c| then c[i] else a[i - |c|];
    }
  }

  lemma ClientTrimOf(a: string, c: string, m: string, d: string, b: string)
    requires AllOf(a, IsTrimChar) && AllOf(b, IsTrimChar) && AllOf(c, IsSpace) && AllOf(d, IsSpace) && CleanEnds(m, IsSpace)
    ensures JsTrim(a + (c + m + d) + b) == m
  {
    Regroup(a, c, m, d, b);
    BlankEnds(a, c);
    BlankEnds(b, d);
    TrimUnique(a + c, m, d + b, IsSpace);
  }

  /** What the client's trim still removes from the server's trimmed text. */
  lemma ClientTrimsMore(s: string) returns (c: string, d: string)
    ensures Trim(s) == c + JsTrim(s) + d
  {
    var a, b := TrimSplits(s, IsTrimChar);
    c, d := TrimSplits(Trim(s), IsSpace);
    ClientTrimOf(a, c, JsTrim(Trim(s)), d, b);
  }

  lemma ClientTrimsSame(s: string)
    requires CleanEnds(Trim(s), IsSpace)
    ensures JsTrim(s) == Trim(s)
  {
    var a, b := TrimSplits(s, IsTrimChar);
    assert "" + Trim(s) + "" == Trim(s);
    ClientTrimOf(a, "", Trim(s), "", b);
  }

  /** The client trims at least what the server trims; they agree unless a vertical tab or
      form feed is left at an end of the server's trimmed text. */
  lemma TrimsAgree(s: string)
    ensures |JsTrim(s)| == |Trim(s)| <==> CleanEnds(Trim(s), IsSpace)
    ensures CleanEnds(Trim(s), IsSpace) ==> JsTrim(s) == Trim(s)
  {
    var c, d := ClientTrimsMore(s);
    var t, j := Trim(s), JsTrim(s);
    assert |t| == |c| + |j| + |d|;
    if CleanEnds(t, IsSpace) {
      ClientTrimsSame(s);
    } else if |j| == |t| {
      assert t == j;
      var _, _ := TrimSplits(s, IsSpace);
    }
  }

  /** Sending normalised text to the server gives what the raw text would have given, exactly
      when the two trims agree. */
  lemma ClientThenServer(s: string)
    ensures TitleCase(NormalizeText(s)) == TitleCase(s) <==> CleanEnds(Trim(s), IsSpace)
  {
    TrimsAgree(s);
    NormalizeTextScan(s);
    TitleCaseCanonical(NormalizeText(s), s);
  }

  lemma ClientThenServerUpper(s: string)
    ensures UpperCase(NormalizeUpperCase(s)) == UpperCase(s) <==> CleanEnds(Trim(s), IsSpace)
  {
    TrimsAgree(s);
    NormalizeUpperCaseScan(s);
    UpperCaseCanonical(NormalizeUpperCase(s), s);
  }

  lemma NothingExoticAtEnds(s: string)
    requires forall i | 0 <= i < |s| :: s[i] != '\U{0B}' && s[i] != '\U{0C}'
    ensures CleanEnds(Trim(s), IsSpace)
  {
    var a, b := TrimSplits(s, IsTrimChar);
    var t := Trim(s);
    if t != "" {
      assert s[|a|] == t[0] && s[|a| + |t| - 1] == t[|t| - 1];
    }
  }

  /** ASCII text without vertical tabs and form feeds always meets that condition. */
  lemma NoExoticBlanks(s: string)
    requires forall i | 0 <= i < |s| :: s[i] != '\U{0B}' && s[i] != '\U{0C}'
    ensures TitleCase(NormalizeText(s)) == TitleCase(s)
    ensures UpperCase(NormalizeUpperCase(s)) == UpperCase(s)
  {
    NothingExoticAtEnds(s);
    ClientThenServer(s);
    ClientThenServerUpper(s);
  }

  predicate IsLetter(c: char) {
    'a' <= c <= 'z' || 'A' <= c <= 'Z'
  }

  /** A letter right after a white-space character other than the space is where the two differ. */
  predicate LetterAfterOtherBlank(t: string, i: nat)
    requires 0 < i < |t|
  {
    IsSpace(t[i - 1]) && t[i - 1] != ' ' && IsLetter(t[i])
  }

  lemma ScanCharsAgree(t: string, i: nat)
    requires i < |t|
    ensures ScanChar(LowerAll(t), i, true) == TitleChar(LowerAll(t), i) <==> i == 0 || !LetterAfterOtherBlank(t, i)
  {
    CaseOfLetter(t[i]);
    if i > 0 { CaseOfLetter(t[i - 1]); }
  }

  lemma ScansAgree(t: string)
    ensures var l := LowerAll(t);
      AfterSpaces(l, true) == seq(|l|, i requires 0 <= i < |l| => TitleChar(l, i))
      <==> forall i | 0 < i < |t| :: !LetterAfterOtherBlank(t, i)
  {
    var l := LowerAll(t);
    var n, r := AfterSpaces(l, true), seq(|l|, i requires 0 <= i < |l| => TitleChar(l, i));
    forall i | 0 <= i < |t| ensures n[i] == r[i] <==> i == 0 || !LetterAfterOtherBlank(t, i) {
      ScanCharsAgree(t, i);
    }
  }

  /** Client and server give the same text outright exactly when the trims agree and no word
      starts after a white-space character other than the space. */
  lemma ClientEqualsServer(s: string)
    ensures NormalizeText(s) == TitleCase(s) <==>
      CleanEnds(Trim(s), IsSpace) && forall i | 0 < i < |Trim(s)| :: !LetterAfterOtherBlank(Trim(s), i)
  {
    TrimsAgree(s);
    NormalizeTextScan(s);
    if |JsTrim(s)| == |Trim(s)| {
      ScansAgree(Trim(s));
      assert AfterSpaces(LowerAll(Trim(s)), true) == NormalizeText(s);
    } else {
      assert |NormalizeText(s)| == |JsTrim(s)| && |TitleCase(s)| == |Trim(s)|;
    }
  }

  // ----- What the client makes of a text, character by character -----

  lemma ScanCharIs(m: string, i: nat)
    requires i < |m|
    ensures ScanChar(LowerAll(m), i, true) ==
      if i == 0 || m[i - 1] == ' ' then
        if 'a' <= m[i] <= 'z' then (m[i] as int - 32) as char else m[i]
      else if 'A' <= m[i] <= 'Z' then (m[i] as int + 32) as char else m[i]
  {
    CaseOfLetter(m[i]);
  }

  /** Like the server's title case, but white space of all kinds goes from the ends, and only a space
      starts a word. */
  lemma NormalizeTextIs(s: string) returns (a: string, m: string, b: string)
    ensures Between(s, a, m, b, " \t\n\r\U{0B}\U{0C}") && |NormalizeText(s)| == |m|
    ensures forall i | 0 <= i < |m| ::
      NormalizeText(s)[i] ==
        if i == 0 || m[i - 1] == ' ' then
          if 'a' <= m[i] <= 'z' then (m[i] as int - 32) as char else m[i]
        else if 'A' <= m[i] <= 'Z' then (m[i] as int + 32) as char else m[i]
  {
    a, b := TrimSplits(s, IsSpace);
    m := JsTrim(s);
    NormalizeTextScan(s);
    forall i | 0 <= i < |m|
      ensures NormalizeText(s)[i] ==
        if i == 0 || m[i - 1] == ' ' then
          if 'a' <= m[i] <= 'z' then (m[i] as int - 32) as char else m[i]
        else if 'A' <= m[i] <= 'Z' then (m[i] as int + 32) as char else m[i]
    {
      assert NormalizeText(s)[i] == ScanChar(LowerAll(m), i, true);
      ScanCharIs(m, i);
    }
  }

  lemma NormalizeUpperCaseIs(s: string) returns (a: string, m: string, b: string)
    ensures Between(s, a, m, b, " \t\n\r\U{0B}\U{0C}") && |NormalizeUpperCase(s)| == |m|
    ensures forall i | 0 <= i < |m| ::
      NormalizeUpperCase(s)[i] == if 'a' <= m[i] <= 'z' then (m[i] as int - 32) as char else m[i]
  {
    a, b := TrimSplits(s, IsSpace);
    m := JsTrim(s);
    NormalizeUpperCaseScan(s);
  }
}
