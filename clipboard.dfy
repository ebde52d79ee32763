/** `generateMarkdown` of src/utils/clipboard.ts: the Markdown image link copied for a GIF. */
module Clipboard {
  import opened Seqs
  import opened Strings

  /** The alt text used when the title is blank. */
  const FallbackAlt: string := "GIF"

  /** The alt text: the trimmed title, or "GIF" when nothing is left. */
  function AltText(title: string): string {
    var t := Trim(title);
    if t == "" then FallbackAlt else t
  }

  /** `generateMarkdown`: `![alt](url)`. */
  function GenerateMarkdown(title: string, url: string): string {
    "![" + AltText(title) + "](" + url + ")"
  }

  /**
   * The link is "![", the alt text, "](", the URL verbatim, and ")"; the alt
   * text is never empty and carries no surrounding whitespace.
   */
  lemma MarkdownLayout(title: string, url: string)
    ensures var m, a := GenerateMarkdown(title, url), AltText(title);
      && |m| == |a| + |url| + 5
      && m[..2] == "![" && m[2..2 + |a|] == a
      && m[2 + |a|..4 + |a|] == "]("
      && m[4 + |a|..|m| - 1] == url
      && m[|m| - 1] == ')'
      && a != [] && !IsWhitespace(a[0]) && !IsWhitespace(a[|a| - 1])
  {
    var a := AltText(title);
    Layout5("![", a, "](", url, ")");
    var m := "![" + a + "](" + url + ")";
    assert m[|m| - 1..] == ")";
    assert m[|m| - 1] == m[|m| - 1..][0];
    AltTextEdges(title);
  }

  /** The alt text is never empty and neither starts nor ends with whitespace. */
  lemma AltTextEdges(title: string)
    ensures var a := AltText(title); a != [] && !IsWhitespace(a[0]) && !IsWhitespace(a[|a| - 1])
  {
    TrimEdges(title);
    assert FallbackAlt[0] == 'G' && FallbackAlt[2] == 'F';
  }

  /** The alt text is the trimmed title exactly when the title is not blank, and "GIF" otherwise. */
  lemma AltTextFallback(title: string)
    ensures AllWhitespace(title) ==> AltText(title) == FallbackAlt
    ensures !AllWhitespace(title) ==> AltText(title) == Trim(title)
  {
    TrimEmptyIff(title);
  }

  /** Whitespace around the title does not change the link. */
  lemma MarkdownIgnoresSurroundingWhitespace(w1: string, title: string, w2: string, url: string)
    requires AllWhitespace(w1) && AllWhitespace(w2)
    ensures GenerateMarkdown(w1 + title + w2, url) == GenerateMarkdown(title, url)
  {
    TrimIgnoresSurroundingWhitespace(w1, title, w2);
  }
}
