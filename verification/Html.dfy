/** `escapeHtml` (`src/frontend/stats.js:7-10`, and the same in `src/frontend/add-car.js:5-8`). */
module Html {

  /** The replacement table. */
  function Entity(c: char): string {
    match c
    case '&' => "&amp;"
    case '<' => "&lt;"
    case '>' => "&gt;"
    case '"' => "&quot;"
    case '\'' => "&#039;"
    case _ => [c]
  }

  function EscapeHtml(text: string): string {
    if text == "" then "" else Entity(text[0]) + EscapeHtml(text[1..])
  }

  /** What a browser makes of the five entities. */
  function Unescape(html: string): string {
    if html == "" then ""
    else if "&amp;" <= html then "&" + Unescape(html[5..])
    else if "&lt;" <= html then "<" + Unescape(html[4..])
    else if "&gt;" <= html then ">" + Unescape(html[4..])
    else if "&quot;" <= html then "\"" + Unescape(html[6..])
    else if "&#039;" <= html then "'" + Unescape(html[6..])
    else [html[0]] + Unescape(html[1..])
  }

  lemma UnescapeEntity(c: char, rest: string)
    ensures Unescape(Entity(c) + rest) == [c] + Unescape(rest)
  {
    var h := Entity(c) + rest;
    match c
    case '&' => assert "&amp;" <= h && h[5..] == rest;
    case '<' => assert h[1] == 'l' && h[..4] == "&lt;" && h[4..] == rest;
    case '>' => assert h[1] == 'g' && h[..4] == "&gt;" && h[4..] == rest;
    case '"' => assert h[1] == 'q' && h[..6] == "&quot;" && h[6..] == rest;
    case '\'' => assert h[1] == '#' && h[..6] == "&#039;" && h[6..] == rest;
    case _ => assert h[0] == c && h[1..] == rest;
  }

  /** Escaped text shows as the original, so escaping loses nothing. */
  lemma {:induction false} EscapeRoundTrip(text: string)
    ensures Unescape(EscapeHtml(text)) == text
  {
    if text == "" {
    } else {
      EscapeRoundTrip(text[1..]);
      UnescapeEntity(text[0], EscapeHtml(text[1..]));
    }
  }

  /** Escaped text holds no quote and no angle bracket. */
  lemma {:induction false} EscapedIsInert(text: string)
    ensures forall i | 0 <= i < |EscapeHtml(text)| ::
      var c := EscapeHtml(text)[i]; c != '<' && c != '>' && c != '"' && c != '\''
  {
    if text == "" {
    } else {
      EscapedIsInert(text[1..]);
    }
  }
}
