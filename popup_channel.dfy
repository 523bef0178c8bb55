/** The popup's channel-name normaliser: like the page's, but it never
    fails, and it validates URL segments as well as plain names. */
module PopupChannel {
  import opened Wrappers
  import opened Strings
  import opened TwitchPlatform

  /** The value before cleaning: the last non-empty path segment when the
      input parses as a URL with one, else the input itself. */
  function Candidate(value: string, parse: UrlParser): (r: string)
    ensures parse(value).None? ==> r == value
    ensures parse(value).Some? && LastNonEmpty(Split(parse(value).value, '/')) != []
            ==> r == LastNonEmpty(Split(parse(value).value, '/'))
    ensures parse(value).Some? && LastNonEmpty(Split(parse(value).value, '/')) == [] ==> r == value
  {
    match parse(value)
    case None => value
    case Some(path) =>
      var parts := NonEmptyPieces(Split(path, '/'));
      LastOfNonEmptyPieces(Split(path, '/'));
      if parts != [] then parts[|parts| - 1] else value
  }

  /** `normalizeChannel(input)`: the empty string stands for "no channel". */
  function NormalizeChannel(input: string, parse: UrlParser): (r: string)
    ensures r == [] || IsChannelName(r)
    ensures AllWhite(input) ==> r == []
    ensures r != [] ==> r == Lower(StripLeading(Trim(Candidate(Trim(input), parse)), '@'))
    ensures var cleaned := Lower(StripLeading(Trim(Candidate(Trim(input), parse)), '@'));
            !AllWhite(input) && IsChannelName(cleaned) ==> r == cleaned
  {
    if input == [] then []
    else
      var value := Trim(input);
      TrimEmptyIffBlank(input);
      if value == [] then []
      else
        var cleaned := Lower(StripLeading(Trim(Candidate(value, parse)), '@'));
        if cleaned == [] then []
        else if !IsChannelName(cleaned) then []
        else cleaned
  }

  /** A channel name normalises to itself when it is not a URL. */
  lemma NormalizeChannelOfName(c: string, parse: UrlParser)
    requires IsChannelName(c) && parse(c).None?
    ensures NormalizeChannel(c, parse) == c
  {
    ChannelNameCanonical(c);
  }

  /** One leading `@` is dropped. */
  lemma NormalizeChannelOfAtName(c: string, parse: UrlParser)
    requires IsChannelName(c) && parse("@" + c).None?
    ensures NormalizeChannel("@" + c, parse) == c
  {
    ChannelNameCanonical(c);
    AtNameTrimmed(c);
    assert StripLeading("@" + c, '@') == c;
  }

  lemma AtNameTrimmed(c: string)
    requires IsChannelName(c)
    ensures Trim("@" + c) == "@" + c
  {
    TrimFixed("@" + c);
  }

  /** A URL whose last path segment is a channel name gives that name. */
  lemma NormalizeChannelOfUrl(input: string, parse: UrlParser)
    requires parse(Trim(input)).Some? && Trim(input) != []
    requires IsChannelName(LastNonEmpty(Split(parse(Trim(input)).value, '/')))
    ensures NormalizeChannel(input, parse) == LastNonEmpty(Split(parse(Trim(input)).value, '/'))
  {
    ChannelNameCanonical(LastNonEmpty(Split(parse(Trim(input)).value, '/')));
  }

  /** Normalising twice changes nothing, unless the result reads as a URL. */
  lemma NormalizeChannelIdempotent(input: string, parse: UrlParser)
    requires parse(NormalizeChannel(input, parse)).None?
    ensures NormalizeChannel(NormalizeChannel(input, parse), parse) == NormalizeChannel(input, parse)
  {
    var r := NormalizeChannel(input, parse);
    if r != [] {
      ChannelNameCanonical(r);
    }
  }
}
