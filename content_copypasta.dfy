/** The page widget's channel scope and the parser for channel names typed into its dialogs. */
module ContentCopyPasta {
  import opened Wrappers
  import opened Strings
  import opened Types
  import opened SharedChannels
  import opened TwitchPlatform

  /** `channelFilter(channel)(item)`: the scope is lowercased but not trimmed. */
  predicate ChannelFilter(channel: string, item: CopyPasta)
    ensures Lower(channel) == [] || item.channels == [] ==> ChannelFilter(channel, item)
  {
    var channelKey := Lower(channel);
    channelKey == [] || GetChannels(item) == [] || SomeChannelIs(item, channelKey)
  }

  /** The empty scope accepts everything, channel-specific records included. */
  lemma ChannelFilterEmptyScope(item: CopyPasta)
    ensures ChannelFilter([], item)
  {
  }

  /** A record without channels is accepted in every scope. */
  lemma ChannelFilterUnscoped(channel: string, item: CopyPasta)
    requires item.channels == []
    ensures ChannelFilter(channel, item)
  {
  }

  /** Otherwise a scoped record is accepted exactly when one of its channels
      equals the scope, ignoring case. */
  lemma ChannelFilterScoped(channel: string, item: CopyPasta)
    requires channel != [] && item.channels != []
    ensures ChannelFilter(channel, item)
            <==> exists i :: 0 <= i < |item.channels| && Lower(item.channels[i]) == Lower(channel)
  {
    LowerEmpty(channel);
  }

  /** The scope is case-insensitive. */
  lemma ChannelFilterIgnoresCase(channel: string, item: CopyPasta)
    ensures ChannelFilter(Lower(channel), item) == ChannelFilter(channel, item)
  {
    LowerIdempotent(channel);
  }

  /** `hasChannelMatch` is `channelFilter` applied to the trimmed channel. */
  lemma HasChannelMatchIsChannelFilter(item: CopyPasta, channel: string)
    ensures HasChannelMatch(item, channel) == ChannelFilter(Trim(channel), item)
  {
  }

  /** For channels without surrounding whitespace the two scopes agree. */
  lemma ScopesAgreeOnTrimmed(item: CopyPasta, channel: string)
    requires IsTrimmed(channel)
    ensures HasChannelMatch(item, channel) == ChannelFilter(channel, item)
  {
    TrimFixed(channel);
  }

  const InvalidChannelMessage := "Please enter a valid Twitch channel URL or name"

  /** `normalizeChannelInput(raw)`: Ok(None) for `undefined`, Err for the thrown error. */
  function NormalizeChannelInput(raw: string, parse: UrlParser): (r: Result<Option<string>, string>)
    ensures Trim(raw) == [] ==> r == Ok(None)
    ensures r.Err? ==> r.error == InvalidChannelMessage
    ensures r.Err? ==> !IsChannelName(Lower(StripLeading(Trim(raw), '@')))
    ensures r.Ok? && r.value.Some? ==>
              r.value.value != []
              && (r.value.value == Lower(ChannelOf(parse, Some(Trim(raw))))
                  || (ChannelOf(parse, Some(Trim(raw))) == []
                      && r.value.value == Lower(StripLeading(Trim(raw), '@'))
                      && IsChannelName(r.value.value)))
  {
    var trimmed := Trim(raw);
    if trimmed == [] then Ok(None)
    else
      var detected := ChannelOf(parse, Some(trimmed));
      if detected != [] then
        LowerEmpty(detected);
        Ok(Some(Lower(detected)))
      else
        var parts := match parse(trimmed) case None => [] case Some(path) => NonEmptyPieces(Split(path, '/'));
        if parts != [] then
          // unreachable: `getChannel` already returned this URL's last non-empty segment
          match parse(trimmed)
          case None => Ok(None)
          case Some(path) =>
            LastOfNonEmptyPieces(Split(path, '/'));
            assert false;
            Ok(None)
        else
          var cleaned := Lower(StripLeading(trimmed, '@'));
          if cleaned == [] then Ok(None)
          else if !IsChannelName(cleaned) then Err(InvalidChannelMessage)
          else Ok(Some(cleaned))
  }

  /** A parseable URL gives its last non-empty path segment, lowercased and unchecked. */
  lemma NormalizeChannelInputUrl(raw: string, parse: UrlParser)
    requires Trim(raw) != [] && parse(Trim(raw)).Some?
    requires LastNonEmpty(Split(parse(Trim(raw)).value, '/')) != []
    ensures NormalizeChannelInput(raw, parse)
            == Ok(Some(Lower(LastNonEmpty(Split(parse(Trim(raw)).value, '/')))))
  {
  }

  /** Input that is not a URL loses one leading `@` and is lowercased; the
      result is kept when it is a channel name, `@` alone gives nothing, and
      anything else is the error. */
  lemma NormalizeChannelInputName(raw: string, parse: UrlParser)
    requires Trim(raw) != [] && parse(Trim(raw)).None?
    ensures var cleaned := Lower(StripLeading(Trim(raw), '@'));
            NormalizeChannelInput(raw, parse)
            == if cleaned == [] then Ok(None)
               else if IsChannelName(cleaned) then Ok(Some(cleaned))
               else Err(InvalidChannelMessage)
  {
  }
}
