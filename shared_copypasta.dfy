/** Display helpers shared by the popup and the page widget: the title and
    description derived from a snippet's content, and the text searched by the
    popup. */
module SharedCopyPasta {
  import opened Strings
  import opened Types

  const TitleMax := 60
  const DescriptionMax := 160

  /** `s.split(/\r?\n/)[0]`: everything before the first line break, where a
      line break is `\n` with an optional `\r` in front of it. */
  function FirstLine(s: string): (r: string)
    ensures r <= s
    ensures '\n' !in r
    ensures s != [] && s[0] != '\n' && s[0] != '\r' ==> r != [] && r[0] == s[0]
    ensures |r| == |s| || s[|r|] == '\n' || (s[|r|] == '\r' && |r| + 1 < |s| && s[|r| + 1] == '\n')
    ensures r != [] && |r| < |s| && s[|r|] == '\n' ==> r[|r| - 1] != '\r'
  {
    if s == [] || s[0] == '\n' then []
    else if s[0] == '\r' && |s| > 1 && s[1] == '\n' then []
    else [s[0]] + FirstLine(s[1..])
  }

  /** `${s.slice(0, max - 3)}...` when `s` is longer than `max`, else `s`. */
  function Truncate(s: string, max: nat): (r: string)
    requires max >= 3
    ensures |r| <= max && (|s| <= max ==> r == s)
    ensures |s| > max ==> r == s[..max - 3] + "..."
  {
    if |s| > max then s[..max - 3] + "..." else s
  }

  /** `deriveTitle`. */
  function DeriveTitle(content: string): (r: string)
    ensures |r| <= TitleMax
  {
    var value := Trim(content);
    if value == [] then "Copypasta"
    else
      var firstLine := Trim(FirstLine(value));
      var base := if firstLine != [] then firstLine else value;
      Truncate(base, TitleMax)
  }

  /** Blank content is titled "Copypasta". */
  lemma DeriveTitleBlank(content: string)
    ensures AllWhite(content) <==> DeriveTitle(content) == "Copypasta" && Trim(content) == []
  {
    TrimEmptyIffBlank(content);
  }

  /** Otherwise the title is the trimmed first line, cut to 57 characters and
      an ellipsis when it is longer than 60; the fallback to the whole value
      never applies, because the trimmed value starts with a non-blank
      character. */
  lemma DeriveTitleFirstLine(content: string)
    requires !AllWhite(content)
    ensures var line := Trim(FirstLine(Trim(content)));
            line != [] && DeriveTitle(content) == Truncate(line, TitleMax)
  {
    TrimEmptyIffBlank(content);
    var value := Trim(content);
    var first := FirstLine(value);
    assert !IsWhite(first[0]);
    TrimEmptyIffBlank(first);
  }

  /** A title never spans lines. */
  lemma DeriveTitleOneLine(content: string)
    ensures '\n' !in DeriveTitle(content)
  {
    var value := Trim(content);
    if value != [] {
      var firstLine := Trim(FirstLine(value));
      TrimChars(FirstLine(value));
      TrimChars(content);
      var base := if firstLine != [] then firstLine else value;
      if firstLine == [] {
        DeriveTitleFallbackDead(content);
      }
      assert '\n' !in base;
      var r := Truncate(base, TitleMax);
      if |base| > TitleMax {
        assert forall i :: 0 <= i < TitleMax - 3 ==> base[..TitleMax - 3][i] == base[i];
        assert forall i :: 0 <= i < |r| ==> r[i] != '\n';
      }
    }
  }

  lemma DeriveTitleFallbackDead(content: string)
    requires Trim(content) != []
    ensures Trim(FirstLine(Trim(content))) != []
  {
    TrimEmptyIffBlank(content);
    DeriveTitleFirstLine(content);
  }

  /** `deriveDescription`. */
  function DeriveDescription(content: string): (r: string)
    ensures |r| <= DescriptionMax
  {
    var value := Trim(content);
    if value == [] then "Saved message" else Truncate(value, DescriptionMax)
  }

  /** Blank content is described as "Saved message"; trimmed content of at most
      160 characters is the description itself, line breaks included; longer
      content is cut to 157 characters and an ellipsis. */
  lemma DeriveDescriptionCases(content: string)
    ensures AllWhite(content) ==> DeriveDescription(content) == "Saved message"
    ensures !AllWhite(content) && |Trim(content)| <= DescriptionMax ==> DeriveDescription(content) == Trim(content)
    ensures |Trim(content)| > DescriptionMax
            ==> DeriveDescription(content) == Trim(content)[..DescriptionMax - 3] + "..."
  {
    TrimEmptyIffBlank(content);
  }

  /** `buildSearchHaystack`: the title and the raw content, separated by NUL,
      lowercased. Both the content and the derived title can be searched. */
  function BuildSearchHaystack(item: CopyPasta): (r: string)
    ensures Includes(r, Lower(item.content))
    ensures Includes(r, Lower(DeriveTitle(item.content)))
  {
    var title := DeriveTitle(item.content);
    var rest := ['\0'] + item.content;
    LowerIncludesParts(title, ['\0'], item.content);
    Lower(title + rest)
  }
}
