/** Channel scoping shared by the popup and the page widget. */
module SharedChannels {
  import opened Strings
  import opened Types

  /** `getChannels`: the record's channel list, always a list here. */
  function GetChannels(item: CopyPasta): (r: seq<string>)
    ensures r == item.channels
  {
    item.channels
  }

  /** Some channel of the item equals `key` once lowercased. */
  predicate SomeChannelIs(item: CopyPasta, key: string) {
    exists i :: 0 <= i < |GetChannels(item)| && Lower(GetChannels(item)[i]) == key
  }

  /** `hasChannelMatch(item, channel)`; an absent channel is the empty string. */
  predicate HasChannelMatch(item: CopyPasta, channel: string)
    ensures item.channels == [] ==> HasChannelMatch(item, channel)
  {
    var normalized := Lower(Trim(channel));
    normalized == [] || GetChannels(item) == [] || SomeChannelIs(item, normalized)
  }

  /** A blank channel, after trimming, and a record without channels both
      match; otherwise one of the record's channels must equal the trimmed
      channel, ignoring case. */
  lemma HasChannelMatchCases(item: CopyPasta, channel: string)
    ensures AllWhite(channel) ==> HasChannelMatch(item, channel)
    ensures item.channels == [] ==> HasChannelMatch(item, channel)
    ensures !AllWhite(channel) && item.channels != [] ==>
              (HasChannelMatch(item, channel)
               <==> exists i :: 0 <= i < |item.channels| && Lower(item.channels[i]) == Lower(Trim(channel)))
  {
    TrimEmptyIffBlank(channel);
    LowerEmpty(Trim(channel));
  }
}
