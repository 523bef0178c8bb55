/** The content script's duplicate-message bypass: per channel it remembers
    the last message sent, and a repeat within 30 seconds alternates an
    invisible trailing marker so the chat accepts it as new. The periodic
    channel check that refetches channel emotes lives here too. */
module ContentScript {
  import opened Wrappers
  import opened Strings
  import opened TwitchPlatform
  import Storage
  import Widget

  /** U+034F COMBINING GRAPHEME JOINER, the invisible marker. */
  const Marker: char := '\U{034F}'
  const DuplicateResetMs := 30000

  /** One channel's record: the normalised last message, whether it carried
      the marker, when it was recorded, and whether an arrow key has just
      put the marker into the input. */
  datatype SentState = SentState(text: string, alt: bool, ts: int, pendingAdjusted: bool)

  const FreshState := SentState([], false, 0, false)

  /** The message without markers, trimmed. */
  function Normalized(rawText: string): (r: string)
    ensures IsTrimmed(r) && Marker !in r
  {
    var r := Trim(RemoveAll(rawText, Marker));
    TrimChars(RemoveAll(rawText, Marker));
    r
  }

  /** The message with the marker appended after a space. */
  function Adjusted(normalized: string): (r: string)
    ensures |r| == |normalized| + 2 && r[..|normalized|] == normalized && r[|r| - 1] == Marker
  {
    normalized + " " + [Marker]
  }

  /** A message and its marked form normalise alike, so the bypass sees
      both as the same message. */
  lemma AdjustedNormalizes(n: string)
    requires IsTrimmed(n) && Marker !in n
    ensures Normalized(Adjusted(n)) == n
    ensures Normalized(n) == n
  {
    assert Adjusted(n) == (n + " ") + [Marker];
    calc {
      RemoveAll(Adjusted(n), Marker);
      { RemoveAllAppend(n + " ", [Marker], Marker); }
      RemoveAll(n + " ", Marker) + RemoveAll([Marker], Marker);
      { assert RemoveAll([Marker], Marker) == []; }
      RemoveAll(n + " ", Marker);
      { RemoveAllAppend(n, " ", Marker); assert RemoveAll(" ", Marker) == " "; }
      RemoveAll(n, Marker) + " ";
    }
    TrimWhiteSuffix(n, " ");
    TrimFixed(n);
  }

  /** What `getDuplicateState` reads for a record: none, or one older than
      30 seconds, reads as the fresh state. */
  function CurrentState(stored: Option<SentState>, now: int): (r: SentState)
    ensures stored.None? ==> r == FreshState
    ensures stored.Some? && now - stored.value.ts > DuplicateResetMs ==> r == FreshState
    ensures stored.Some? && now - stored.value.ts <= DuplicateResetMs ==> r == stored.value
  {
    match stored
    case None => FreshState
    case Some(s) => if now - s.ts > DuplicateResetMs then FreshState else s
  }

  /** The result of one Enter press on a non-blank message: the record to
      store and the text to put into the chat input, if any. */
  datatype Outcome = Outcome(state: SentState, write: Option<string>)

  /** The Enter handler once the message `rawText` (trimmed, non-blank) is
      known. A message just rewritten by an arrow key is recorded as sent,
      the marker noted; a repeat flips `alt` and is sent marked when `alt`
      is set; a new message is sent plain. The input is rewritten only
      when the text to send differs from what is there. */
  function EnterStep(state: SentState, rawText: string, now: int): (r: Outcome)
    ensures r.state.text == Normalized(rawText) && r.state.ts == now && !r.state.pendingAdjusted
    ensures state.pendingAdjusted ==> r == Outcome(SentState(Normalized(rawText), Marker in rawText, now, false), None)
    ensures !state.pendingAdjusted && state.text == Normalized(rawText) ==> r.state.alt == !state.alt
    ensures !state.pendingAdjusted && state.text != Normalized(rawText) ==> !r.state.alt
    ensures !state.pendingAdjusted ==>
              var next := if r.state.alt then Adjusted(Normalized(rawText)) else Normalized(rawText);
              r.write == (if next != rawText then ChatInputRequest(next) else None)
  {
    var normalized := Normalized(rawText);
    if state.pendingAdjusted then
      Outcome(SentState(normalized, Marker in rawText, now, false), None)
    else
      var alt := if state.text == normalized then !state.alt else false;
      var next := if alt then Adjusted(normalized) else normalized;
      Outcome(SentState(normalized, alt, now, false), if next != rawText then ChatInputRequest(next) else None)
  }

  /** Sending the same message again and again within the window alternates
      between the marked and the plain form. */
  lemma RepeatAlternates(state: SentState, msg: string, now1: int, now2: int)
    requires IsTrimmed(msg) && msg != [] && Marker !in msg && !state.pendingAdjusted
    requires 0 <= now2 - now1 <= DuplicateResetMs
    ensures var first := EnterStep(state, msg, now1);
            var second := EnterStep(CurrentState(Some(first.state), now2), msg, now2);
            second.state.text == msg && second.state.alt == !first.state.alt
  {
    AdjustedNormalizes(msg);
  }

  /** A message typed for the second time in a row goes out marked. */
  lemma SecondSendMarked(msg: string, now1: int, now2: int)
    requires IsTrimmed(msg) && msg != [] && Marker !in msg
    requires 0 <= now2 - now1 <= DuplicateResetMs
    ensures var first := EnterStep(FreshState, msg, now1);
            var second := EnterStep(CurrentState(Some(first.state), now2), msg, now2);
            first.write == None && second.write == Some(Adjusted(msg))
  {
    AdjustedNormalizes(msg);
    assert Adjusted(msg) != msg by {
      assert |Adjusted(msg)| == |msg| + 2;
    }
  }

  /** The arrow-key step (ArrowUp and ArrowDown alike): recalling the last
      message marks it and flags the record; anything else clears the flag.
      The record's timestamp is refreshed either way. */
  function ArrowStep(state: SentState, rawText: string, now: int): (r: Outcome)
    ensures (state.text != [] && Normalized(rawText) == state.text)
            ==> r == Outcome(state.(pendingAdjusted := true, ts := now), Some(Adjusted(state.text)))
    ensures !(state.text != [] && Normalized(rawText) == state.text)
            ==> r == Outcome(state.(pendingAdjusted := false, ts := now), None)
  {
    var normalized := Normalized(rawText);
    if state.text != [] && normalized == state.text then
      Outcome(state.(pendingAdjusted := true, ts := now), Some(Adjusted(normalized)))
    else
      Outcome(state.(pendingAdjusted := false, ts := now), None)
  }

  /** Recalling a message with an arrow key and sending it records it as
      sent with the marker, and rewrites nothing. */
  lemma RecallThenSend(state: SentState, now1: int, now2: int)
    requires state.text != [] && IsTrimmed(state.text) && Marker !in state.text
    requires 0 <= now2 - now1 <= DuplicateResetMs
    ensures var recalled := ArrowStep(state, state.text, now1);
            var sent := EnterStep(CurrentState(Some(recalled.state), now2), Adjusted(state.text), now2);
            sent == Outcome(SentState(state.text, true, now2, false), None)
  {
    AdjustedNormalizes(state.text);
  }

  /** The script's module-level state. */
  class DuplicateBypass {
    var lastSentByChannel: map<string, SentState>
    var duplicateBypassEnabled: bool
    var lastChannel: string

    constructor(initialChannel: string)
      ensures lastSentByChannel == map[] && !duplicateBypassEnabled && lastChannel == initialChannel
    {
      lastSentByChannel := map[];
      duplicateBypassEnabled := false;
      lastChannel := initialChannel;
    }

    /** `getDuplicateState(channel)`. */
    function GetDuplicateState(channel: string, now: int): SentState
      reads this
    {
      CurrentState(if channel in lastSentByChannel then Some(lastSentByChannel[channel]) else None, now)
    }

    /** `applySettings`, for the bypass flag. */
    method ApplySettings(enableDuplicateBypass: bool)
      modifies this
      ensures duplicateBypassEnabled == enableDuplicateBypass
      ensures lastSentByChannel == old(lastSentByChannel) && lastChannel == old(lastChannel)
    {
      duplicateBypassEnabled := enableDuplicateBypass;
    }

    /** The capturing Enter listener. `promptFocused` says whether the chat
        prompt exists and has focus; `promptText` is its text. Returns what
        is handed to `setChatInput`. */
    method OnEnter(key: string, promptFocused: bool, channel: string, promptText: string, now: int)
      returns (write: Option<string>)
      modifies this
      ensures var active := duplicateBypassEnabled && key == "Enter" && promptFocused && !AllWhite(promptText);
              && (!active ==> write.None? && lastSentByChannel == old(lastSentByChannel))
              && (active ==>
                    var out := EnterStep(old(GetDuplicateState(channel, now)), Trim(promptText), now);
                    write == out.write && lastSentByChannel == old(lastSentByChannel)[channel := out.state])
      ensures duplicateBypassEnabled == old(duplicateBypassEnabled) && lastChannel == old(lastChannel)
    {
      if !duplicateBypassEnabled || key != "Enter" || !promptFocused {
        return None;
      }
      var rawText := Trim(promptText);
      TrimEmptyIffBlank(promptText);
      if rawText == [] {
        return None;
      }
      var normalized := Trim(RemoveAll(rawText, Marker));
      var state := GetDuplicateState(channel, now);
      if state.pendingAdjusted {
        lastSentByChannel := lastSentByChannel[channel := SentState(normalized, Marker in rawText, now, false)];
        return None;
      }
      var next := normalized;
      var alt := state.alt;
      if state.text == normalized {
        alt := !alt;
        if alt {
          next := normalized + " " + [Marker];
        } else {
          next := normalized;
        }
      } else {
        alt := false;
      }
      write := None;
      if next != rawText {
        write := ChatInputRequest(next);
      }
      lastSentByChannel := lastSentByChannel[channel := SentState(normalized, alt, now, false)];
    }

    /** The ArrowUp and ArrowDown listeners, at the animation frame they
        defer to. `promptPresent` says whether the chat prompt exists. */
    method OnArrow(key: string, promptPresent: bool, channel: string, promptText: string, now: int)
      returns (write: Option<string>)
      modifies this
      ensures var active := duplicateBypassEnabled && (key == "ArrowUp" || key == "ArrowDown")
                            && promptPresent && !AllWhite(promptText);
              && (!active ==> write.None? && lastSentByChannel == old(lastSentByChannel))
              && (active ==>
                    var out := ArrowStep(old(GetDuplicateState(channel, now)), Trim(promptText), now);
                    write == out.write && lastSentByChannel == old(lastSentByChannel)[channel := out.state])
      ensures duplicateBypassEnabled == old(duplicateBypassEnabled) && lastChannel == old(lastChannel)
    {
      if !duplicateBypassEnabled || (key != "ArrowUp" && key != "ArrowDown") || !promptPresent {
        return None;
      }
      var rawText := Trim(promptText);
      TrimEmptyIffBlank(promptText);
      if rawText == [] {
        return None;
      }
      var normalized := Trim(RemoveAll(rawText, Marker));
      var state := GetDuplicateState(channel, now);
      if state.text != [] && normalized == state.text {
        var adjusted := normalized + " " + [Marker];
        write := Some(adjusted);
        lastSentByChannel := lastSentByChannel[channel := state.(pendingAdjusted := true, ts := now)];
      } else {
        write := None;
        lastSentByChannel := lastSentByChannel[channel := state.(pendingAdjusted := false, ts := now)];
      }
    }

    /** The two-second channel check: a new, non-empty channel becomes the
        last channel and its emotes are fetched. Returns the channel to fetch. */
    method PollChannel(channel: string) returns (fetch: Option<string>)
      modifies this
      ensures fetch.Some? <==> channel != [] && channel != old(lastChannel)
      ensures fetch.Some? ==> fetch.value == channel && lastChannel == channel
      ensures fetch.None? ==> lastChannel == old(lastChannel)
      ensures lastSentByChannel == old(lastSentByChannel) && duplicateBypassEnabled == old(duplicateBypassEnabled)
    {
      if channel != [] && channel != lastChannel {
        lastChannel := channel;
        return Some(channel);
      }
      return None;
    }
  }

  /** The `data-reset` message: the stored list is removed and saved
      empty, and the widget closes. The working copy is left as it was;
      the next `open` rereads the now empty store. */
  method HandleDataReset(widget: Widget.CopyPastaWidget)
    modifies widget, widget.store
    ensures widget.store.storage == [] && !widget.isOpen
    ensures Storage.Read(widget.store.storage) == [] && Storage.Healed(widget.store.storage) == []
    ensures widget.items == old(widget.items) && widget.dialogOpen == old(widget.dialogOpen)
  {
    widget.store.storage := [];
    widget.store.Save([]);
    widget.Close();
  }
}
