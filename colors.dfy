/** The colour of the language dot on a repository card. */
module Colors {
  import opened Repos

  /** The colour used for any language not in the table. */
  const DefaultColor: string := "#cccccc"

  /** The static table of `getLanguageColor`. */
  const LanguageColors: map<string, string> := map[
    "JavaScript" := "#f1e05a", "Python" := "#3572A5", "Java" := "#b07219",
    "HTML" := "#e34c26", "CSS" := "#563d7c", "TypeScript" := "#2b7489",
    "C" := "#555555", "C++" := "#f34b7d", "Ruby" := "#701516"]

  predicate IsHexDigit(c: char) {
    '0' <= c <= '9' || 'a' <= c <= 'f' || 'A' <= c <= 'F'
  }

  /** A CSS colour of the form `#rrggbb`. */
  predicate IsHexColor(c: string) {
    |c| == 7 && c[0] == '#' && forall i :: 1 <= i < 7 ==> IsHexDigit(c[i])
  }

  lemma TableIsHexColors()
    ensures forall lang :: lang in LanguageColors ==> IsHexColor(LanguageColors[lang])
  {
  }

  /** `colors[lang] || '#cccccc'`: the table entry when there is a non-empty one, else the default. */
  function LanguageColor(lang: string): (c: string)
    ensures lang in LanguageColors ==> c == LanguageColors[lang]
    ensures lang !in LanguageColors ==> c == DefaultColor
    ensures IsHexColor(c)
  {
    TableIsHexColors();
    if lang in LanguageColors && LanguageColors[lang] != "" then LanguageColors[lang] else DefaultColor
  }

  /** The nine listed languages get their own colours; lookup is case-sensitive. */
  lemma ListedColors()
    ensures LanguageColor("JavaScript") == "#f1e05a" && LanguageColor("Python") == "#3572A5"
    ensures LanguageColor("Java") == "#b07219" && LanguageColor("HTML") == "#e34c26"
    ensures LanguageColor("CSS") == "#563d7c" && LanguageColor("TypeScript") == "#2b7489"
    ensures LanguageColor("C") == "#555555" && LanguageColor("C++") == "#f34b7d"
    ensures LanguageColor("Ruby") == "#701516"
    ensures LanguageColor("javascript") == DefaultColor && LanguageColor("Go") == DefaultColor
  {
  }

  /** The card shows a coloured dot only for a truthy language. */
  function DotColor(r: Repo): (c: Option<string>)
    ensures c.Some? <==> Truthy(r.language)
    ensures c.Some? ==> c.value == LanguageColor(r.language.value) && IsHexColor(c.value)
  {
    if Truthy(r.language) then Some(LanguageColor(r.language.value)) else None
  }
}
