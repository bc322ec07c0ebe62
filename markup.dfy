/** The prompt_toolkit markup helpers of gpt_ui: colour and bold wrappers
    and the role-dependent colouring of a speaker label. */
module Markup {
  import opened Wrappers
  import opened Strings

  const StyleClose: string := "</style>"

  function StyleOpen(color: string): string {
    "<style fg=\"ansi" + color + "\">"
  }

  /** `HTML_color`: wrap `text` in a style element with foreground `ansi<color>`. */
  function HTMLColor(text: string, color: string): (r: string)
    ensures StartsWith(r, StyleOpen(color)) && EndsWith(r, StyleClose)
    ensures |r| == |StyleOpen(color)| + |text| + |StyleClose|
  {
    var r := StyleOpen(color) + text + StyleClose;
    assert r[..|StyleOpen(color)|] == StyleOpen(color);
    assert r[|r| - |StyleClose|..] == StyleClose;
    r
  }

  /** `HTML_bold`: wrap `text` in a `b` element. */
  function HTMLBold(text: string): (r: string)
    ensures StartsWith(r, "<b>") && EndsWith(r, "</b>")
    ensures |r| == |text| + 7
  {
    var r := "<b>" + text + "</b>";
    assert r[..3] == "<b>";
    assert r[|r| - 4..] == "</b>";
    r
  }

  /** The text inside a `b` element, if `s` is one. */
  function UnBold(s: string): Option<string> {
    if |s| >= 7 && StartsWith(s, "<b>") && EndsWith(s, "</b>") then Some(s[3..|s| - 4]) else None
  }

  /** The text inside a style element of the given colour, if `s` is one. */
  function UnColor(s: string, color: string): Option<string> {
    var open := StyleOpen(color);
    if |s| >= |open| + |StyleClose| && StartsWith(s, open) && EndsWith(s, StyleClose)
    then Some(s[|open|..|s| - |StyleClose|]) else None
  }

  lemma BoldRoundTrip(text: string)
    ensures UnBold(HTMLBold(text)) == Some(text)
  {
    var r := HTMLBold(text);
    assert r == "<b>" + text + "</b>";
    assert r[3..|r| - 4] == text;
  }

  lemma ColorRoundTrip(text: string, color: string)
    ensures UnColor(HTMLColor(text, color), color) == Some(text)
  {
    var open := StyleOpen(color);
    var r := HTMLColor(text, color);
    assert r == open + text + StyleClose;
    assert r[|open|..|r| - |StyleClose|] == text;
  }

  /** The colour `color_by_role` picks: a role naming "system" anywhere is
      blue, else one naming "user" is green, else red. */
  function RoleColor(role: string): (r: string)
    ensures r == "blue" <==> Contains(role, "system")
    ensures r == "green" <==> !Contains(role, "system") && Contains(role, "user")
    ensures r == "red" <==> !Contains(role, "system") && !Contains(role, "user")
  {
    if Contains(role, "system") then "blue"
    else if Contains(role, "user") then "green"
    else "red"
  }

  /** The label shown: the text when it is given and non-empty (Python
      truthiness), else the role. */
  function Label(role: string, text: Option<string>): (r: string)
    ensures text.Some? && text.value != "" ==> r == text.value
    ensures text.None? || text.value == "" ==> r == role
  {
    match text
    case Some(t) => if t != "" then t else role
    case None => role
  }

  /** `color_by_role`: the label, coloured by role, in bold. Unwrapping the
      bold and then the colour of the role gives back the label. */
  function ColorByRole(role: string, text: Option<string>): (r: string)
    ensures UnBold(r).Some?
    ensures UnColor(UnBold(r).value, RoleColor(role)) == Some(Label(role, text))
  {
    var inner := HTMLColor(Label(role, text), RoleColor(role));
    BoldRoundTrip(inner);
    ColorRoundTrip(Label(role, text), RoleColor(role));
    HTMLBold(inner)
  }
}
