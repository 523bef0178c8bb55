/** The popup's add/edit dialog: the form values it starts from and the
    record it builds on submit. */
module EditDialog {
  import opened Wrappers
  import opened Strings
  import opened Types
  import opened TwitchPlatform
  import opened PopupChannel

  /** The three text fields of the form. */
  datatype Form = Form(content: string, tags: string, channels: string)

  /** `open(item)`: the fields filled from the edited record, or blank for a new one. */
  function Prefill(item: Option<CopyPasta>): (r: Form)
    ensures item.None? ==> r == Form([], [], [])
    ensures item.Some? ==> r.content == item.value.content
    ensures item.Some? && (forall i :: 0 <= i < |item.value.tags| ==> item.value.tags[i] != [] && NoSep(White, item.value.tags[i]))
            ==> Tokens(r.tags, White) == item.value.tags
  {
    match item
    case None => Form([], [], [])
    case Some(cp) =>
      JoinedTagsSplitBack(cp.tags);
      Form(cp.content, JoinWith(cp.tags, " "), JoinWith(cp.channels, ", "))
  }

  /** Tags without whitespace survive being joined with spaces and split again. */
  lemma JoinedTagsSplitBack(tags: seq<string>)
    ensures (forall i :: 0 <= i < |tags| ==> tags[i] != [] && NoSep(White, tags[i]))
            ==> Tokens(JoinWith(tags, " "), White) == tags
  {
    if forall i :: 0 <= i < |tags| ==> tags[i] != [] && NoSep(White, tags[i]) {
      TokensJoinWith(tags, " ", White);
    }
  }

  /** The non-empty normalised channel of each piece, in order. */
  function NormalizedChannels(parts: seq<string>, parse: UrlParser): (r: seq<string>)
    ensures forall c :: c in r ==> IsChannelName(c)
  {
    if parts == [] then []
    else KeptChannel(parts[0], parse) + NormalizedChannels(parts[1..], parse)
  }

  /** One piece's normalised channel, or nothing when it normalises to `''`. */
  function KeptChannel(part: string, parse: UrlParser): (r: seq<string>)
    ensures forall c :: c in r ==> IsChannelName(c)
  {
    var c := NormalizeChannel(part, parse);
    if c == [] then [] else [c]
  }

  /** `map` and `filter` keep order: normalising a concatenation normalises each part. */
  lemma {:induction false} NormalizedChannelsAppend(a: seq<string>, b: seq<string>, parse: UrlParser)
    ensures NormalizedChannels(a + b, parse) == NormalizedChannels(a, parse) + NormalizedChannels(b, parse)
  {
    if a == [] {
      assert a + b == b;
    } else {
      var kept := KeptChannel(a[0], parse);
      assert (a + b)[0] == a[0];
      assert (a + b)[1..] == a[1..] + b;
      calc {
        NormalizedChannels(a + b, parse);
        kept + NormalizedChannels(a[1..] + b, parse);
        { NormalizedChannelsAppend(a[1..], b, parse); }
        kept + (NormalizedChannels(a[1..], parse) + NormalizedChannels(b, parse));
        (kept + NormalizedChannels(a[1..], parse)) + NormalizedChannels(b, parse);
        NormalizedChannels(a, parse) + NormalizedChannels(b, parse);
      }
    }
  }

  /** One piece is kept, normalised, exactly when it normalises to a name. */
  lemma NormalizedChannelsOne(p: string, parse: UrlParser)
    ensures NormalizedChannels([p], parse)
            == if NormalizeChannel(p, parse) == [] then [] else [NormalizeChannel(p, parse)]
  {
    assert [p][1..] == [];
  }

  /** A channel is kept exactly when some piece normalises to it. */
  lemma {:induction false} NormalizedChannelsMembers(parts: seq<string>, parse: UrlParser, c: string)
    ensures c in NormalizedChannels(parts, parse)
            <==> c != [] && exists p :: p in parts && NormalizeChannel(p, parse) == c
  {
    if parts != [] {
      NormalizedChannelsMembers(parts[1..], parse, c);
      assert forall p :: p in parts <==> p == parts[0] || p in parts[1..];
    }
  }

  /** `buildPayload(existing)`: None for blank content; otherwise the
      trimmed content, the whitespace-separated tags and the distinct valid
      channels, under the edited record's id or the next free one. */
  function BuildPayload(form: Form, existing: Option<CopyPasta>, nextId: int, parse: UrlParser): (r: Option<CopyPasta>)
    ensures r.None? <==> AllWhite(form.content)
    ensures r.Some? ==> r.value.content == Trim(form.content) && IsTrimmed(r.value.content) && r.value.content != []
    ensures r.Some? ==> r.value.id == (if existing.Some? then existing.value.id else nextId)
    ensures r.Some? ==> r.value.tags == Tokens(form.tags, White)
    ensures r.Some? ==> forall i :: 0 <= i < |r.value.tags| ==> r.value.tags[i] != [] && NoSep(White, r.value.tags[i])
    ensures r.Some? ==> Distinct(r.value.channels) && forall c :: c in r.value.channels ==> IsChannelName(c)
    ensures r.Some? ==> (forall c ::
                           c in r.value.channels <==> c in NormalizedChannels(Tokens(form.channels, WhiteOrComma), parse))
    ensures r.Some? ==> r.value.channels == Dedup(NormalizedChannels(Tokens(form.channels, WhiteOrComma), parse))
  {
    var content := Trim(form.content);
    TrimEmptyIffBlank(form.content);
    if content == [] then None
    else
      var tags := Tokens(form.tags, White);
      TokensWellFormed(form.tags, White);
      var channels := Dedup(NormalizedChannels(Tokens(form.channels, WhiteOrComma), parse));
      var id := if existing.Some? then existing.value.id else nextId;
      Some(CopyPasta(id, content, tags, channels))
  }

  /** A record the dialog can show faithfully: trimmed content, tags without
      whitespace, distinct channel names that do not read as URLs. */
  predicate Editable(cp: CopyPasta, parse: UrlParser) {
    cp.content != [] && Trim(cp.content) == cp.content
    && (forall i :: 0 <= i < |cp.tags| ==> cp.tags[i] != [] && NoSep(White, cp.tags[i]))
    && Distinct(cp.channels)
    && (forall i :: 0 <= i < |cp.channels| ==> IsChannelName(cp.channels[i]) && parse(cp.channels[i]).None?)
  }

  /** Submitting the dialog unchanged gives back the edited record. */
  lemma SubmitUnchanged(cp: CopyPasta, nextId: int, parse: UrlParser)
    requires Editable(cp, parse)
    ensures BuildPayload(Prefill(Some(cp)), Some(cp), nextId, parse) == Some(cp)
  {
    var form := Prefill(Some(cp));
    TrimEmptyIffBlank(cp.content);
    TokensJoinWith(cp.tags, " ", White);
    ChannelsAreTokens(cp.channels);
    TokensJoinWith(cp.channels, ", ", WhiteOrComma);
    NormalizedChannelsOfNames(cp.channels, parse);
    DedupDistinct(cp.channels);
  }

  lemma ChannelsAreTokens(chs: seq<string>)
    requires forall i :: 0 <= i < |chs| ==> IsChannelName(chs[i])
    ensures forall i :: 0 <= i < |chs| ==> chs[i] != [] && NoSep(WhiteOrComma, chs[i])
  {
  }

  /** Channel names that are not URLs normalise to themselves. */
  lemma {:induction false} NormalizedChannelsOfNames(chs: seq<string>, parse: UrlParser)
    requires forall i :: 0 <= i < |chs| ==> IsChannelName(chs[i]) && parse(chs[i]).None?
    ensures NormalizedChannels(chs, parse) == chs
  {
    if chs != [] {
      NormalizeChannelOfName(chs[0], parse);
      NormalizedChannelsOfNames(chs[1..], parse);
    }
  }
}
