/** The channel-chip field of the page's add dialog. */
module ChannelEditor {
  import opened Wrappers
  import opened Strings
  import opened TwitchPlatform
  import opened ContentCopyPasta

  class ChannelInput {
    var channels: seq<string>
    /** The text typed but not yet committed. */
    var input: string
    /** The lists handed to `onChange`, oldest first. */
    var notified: seq<seq<string>>
    /** The messages handed to `onError`, oldest first. */
    var errors: seq<string>

    constructor(initialChannels: seq<string>)
      ensures channels == initialChannels && input == [] && notified == [] && errors == []
    {
      channels := initialChannels;
      input := [];
      notified := [];
      errors := [];
    }

    function GetChannels(): seq<string>
      reads this
    {
      channels
    }

    method SetChannels(newChannels: seq<string>)
      modifies this
      ensures channels == newChannels && notified == old(notified) + [newChannels]
      ensures input == old(input) && errors == old(errors)
    {
      channels := newChannels;
      notified := notified + [channels];
    }

    /** `commitPendingChannel`: blank input succeeds and changes nothing; a
        rejected value reports the error, keeps the input and fails; any
        other value clears the input and is appended when it is new. */
    method CommitPendingChannel(parse: UrlParser) returns (ok: bool)
      modifies this
      ensures var n := NormalizeChannelInput(Trim(old(input)), parse);
              && (ok <==> AllWhite(old(input)) || n.Ok?)
              && (AllWhite(old(input)) ==> unchanged(this))
              && (!AllWhite(old(input)) && n.Err? ==>
                    channels == old(channels) && input == old(input) && notified == old(notified)
                    && errors == old(errors) + [n.error])
              && (!AllWhite(old(input)) && n.Ok? ==>
                    input == [] && errors == old(errors)
                    && channels == Committed(old(channels), old(input), parse)
                    && notified == old(notified) + (if channels != old(channels) then [channels] else []))
    {
      var pending := Trim(input);
      TrimEmptyIffBlank(input);
      if pending == [] {
        return true;
      }
      var normalized := NormalizeChannelInput(pending, parse);
      ok := CommitNormalized(normalized);
    }

    /** The rest of `commitPendingChannel` once the text is normalised: an
        error is reported and the text kept; otherwise the text is cleared
        and a new channel appended with one `onChange`. */
    method CommitNormalized(normalized: Result<Option<string>, string>) returns (ok: bool)
      modifies this
      ensures ok <==> normalized.Ok?
      ensures normalized.Err? ==> channels == old(channels) && input == old(input) && notified == old(notified)
                                  && errors == old(errors) + [normalized.error]
      ensures normalized.Ok? ==> input == [] && errors == old(errors)
                                 && channels == Appended(old(channels), normalized)
                                 && notified == old(notified) + (if channels != old(channels) then [channels] else [])
    {
      if normalized.Err? {
        errors := errors + [normalized.error];
        return false;
      }
      input := [];
      if normalized.value.None? {
        return true;
      }
      if normalized.value.value in channels {
        return true;
      }
      channels := channels + [normalized.value.value];
      notified := notified + [channels];
      return true;
    }

    /** The chip's remove button: drops that channel value and notifies. */
    method RemoveChannel(channel: string)
      modifies this
      ensures channels == Without(old(channels), channel)
      ensures input == old(input) && errors == old(errors) && notified == old(notified) + [channels]
    {
      channels := Without(channels, channel);
      notified := notified + [channels];
    }
  }

  /** The channels after a commit of `pending`: a channel it yields is
      appended when it is new. */
  function Committed(channels: seq<string>, pending: string, parse: UrlParser): (r: seq<string>)
    ensures Distinct(channels) ==> Distinct(r)
    ensures r == channels || (|r| == |channels| + 1 && r[..|channels|] == channels
                              && r[|channels|] !in channels && r[|channels|] != [])
  {
    Appended(channels, NormalizeChannelInput(Trim(pending), parse))
  }

  /** The channels after a normalised input: a new channel is appended. */
  function Appended(channels: seq<string>, normalized: Result<Option<string>, string>): seq<string> {
    match normalized
    case Ok(Some(c)) => if c in channels then channels else channels + [c]
    case _ => channels
  }
}
