/** The popup's list filter: a whitespace-separated query of `#tag`,
    `channel:name` and plain-word tokens, combined with AND. */
module PopupFilter {
  import opened Wrappers
  import opened Strings
  import opened Types
  import opened SharedChannels
  import opened SharedCopyPasta

  const ChannelPrefix := "channel:"

  /** What the token loop collects: the tag set, the channel (the last
      `channel:` token wins) and the words in query order, all lowercased. */
  datatype Criteria = Criteria(tags: set<string>, channel: string, words: seq<string>)

  predicate IsTagToken(part: string) {
    part != [] && part[0] == '#'
  }

  predicate IsChannelToken(part: string) {
    !IsTagToken(part) && ChannelPrefix <= part
  }

  /** One turn of the loop. */
  function Step(c: Criteria, part: string): Criteria {
    if IsTagToken(part) then c.(tags := c.tags + {Lower(part[1..])})
    else if ChannelPrefix <= part then c.(channel := Lower(part[|ChannelPrefix|..]))
    else c.(words := c.words + [Lower(part)])
  }

  /** The loop over all tokens. */
  function ParseParts(parts: seq<string>): (r: Criteria)
    ensures |r.words| <= |parts|
  {
    if parts == [] then Criteria({}, [], [])
    else Step(ParseParts(parts[..|parts| - 1]), parts[|parts| - 1])
  }

  /** The tag set holds exactly the lowercased bodies of the `#` tokens. */
  lemma {:induction false} ParsePartsTags(parts: seq<string>, t: string)
    ensures t in ParseParts(parts).tags
            <==> exists i :: 0 <= i < |parts| && IsTagToken(parts[i]) && Lower(parts[i][1..]) == t
  {
    if parts != [] {
      var init := parts[..|parts| - 1];
      ParsePartsTags(init, t);
      assert forall i :: 0 <= i < |init| ==> init[i] == parts[i];
    }
  }

  /** The channel is the last `channel:` token's value, or empty when there is none. */
  lemma {:induction false} ParsePartsChannel(parts: seq<string>)
    ensures (forall i :: 0 <= i < |parts| ==> !IsChannelToken(parts[i])) ==> ParseParts(parts).channel == []
    ensures forall k :: 0 <= k < |parts| && IsChannelToken(parts[k])
                        && (forall j :: k < j < |parts| ==> !IsChannelToken(parts[j]))
                        ==> ParseParts(parts).channel == Lower(parts[k][|ChannelPrefix|..])
  {
    if parts != [] {
      var init := parts[..|parts| - 1];
      var last := parts[|parts| - 1];
      ParsePartsChannel(init);
      assert forall i :: 0 <= i < |init| ==> init[i] == parts[i];
      forall k | 0 <= k < |parts| && IsChannelToken(parts[k])
                 && (forall j :: k < j < |parts| ==> !IsChannelToken(parts[j]))
        ensures ParseParts(parts).channel == Lower(parts[k][|ChannelPrefix|..])
      {
        if k < |init| {
          assert !IsChannelToken(last);
          assert IsChannelToken(init[k]);
          assert forall j :: k < j < |init| ==> !IsChannelToken(init[j]);
        }
      }
    }
  }

  /** The plain words are exactly the other tokens, lowercased. Only
      membership is stated, since the words are tested with AND. */
  lemma {:induction false} ParsePartsWords(parts: seq<string>)
    ensures forall w :: w in ParseParts(parts).words
              <==> exists i :: 0 <= i < |parts| && !IsTagToken(parts[i]) && !IsChannelToken(parts[i])
                               && Lower(parts[i]) == w
  {
    if parts != [] {
      var init := parts[..|parts| - 1];
      ParsePartsWords(init);
      assert forall i :: 0 <= i < |init| ==> init[i] == parts[i];
    }
  }

  /** `createFilter(query)` before the predicate is returned: none for a blank query. */
  function FilterOf(query: string): (r: Option<Criteria>)
    ensures r.None? <==> AllWhite(query)
  {
    TrimEmptyIffBlank(query);
    var trimmed := Trim(query);
    if trimmed == [] then None else Some(ParseParts(Tokens(trimmed, White)))
  }

  predicate ChannelOk(c: Criteria, item: CopyPasta) {
    c.channel == [] || c.channel == "*"
    || (GetChannels(item) != [] && SomeChannelIs(item, c.channel))
  }

  predicate TagsOk(c: Criteria, item: CopyPasta) {
    forall t :: t in c.tags ==> exists j :: 0 <= j < |item.tags| && Includes(Lower(item.tags[j]), t)
  }

  predicate WordsOk(c: Criteria, item: CopyPasta) {
    forall i :: 0 <= i < |c.words| ==> Includes(BuildSearchHaystack(item), c.words[i])
  }

  /** The returned predicate. */
  predicate Accepts(filter: Option<Criteria>, item: CopyPasta)
    ensures filter.None? ==> Accepts(filter, item)
  {
    match filter
    case None => true
    case Some(c) => ChannelOk(c, item) && TagsOk(c, item) && WordsOk(c, item)
  }

  /** A blank query accepts everything. */
  lemma BlankAcceptsAll(query: string, item: CopyPasta)
    requires AllWhite(query)
    ensures Accepts(FilterOf(query), item)
  {
    TrimEmptyIffBlank(query);
  }

  /** Unlike the widget's scope, a channel filter other than `*` rejects
      records that have no channels. */
  lemma ChannelFilterRejectsUnscoped(c: Criteria, item: CopyPasta)
    requires c.channel != [] && c.channel != "*" && item.channels == []
    ensures !Accepts(Some(c), item)
  {
  }

  /** A token a query can end with without starting a new channel filter. */
  predicate NarrowingToken(tok: string) {
    tok != [] && NoSep(White, tok) && !IsChannelToken(tok)
  }

  /** Appending a `#tag` or plain-word token never accepts more. */
  lemma NarrowingNeverWidens(query: string, tok: string, item: CopyPasta)
    requires NarrowingToken(tok)
    ensures Accepts(FilterOf(query + " " + tok), item) ==> Accepts(FilterOf(query), item)
  {
    if Trim(query) != [] {
      var parts := Tokens(Trim(query), White);
      TokensOfExtended(query, tok);
      var c := ParseParts(parts);
      assert (parts + [tok])[..|parts|] == parts;
      if Accepts(FilterOf(query + " " + tok), item) {
        var c' := Step(c, tok);
        assert Accepts(Some(c'), item);
        if IsTagToken(tok) {
          assert TagsOk(c, item);
        } else {
          assert forall i :: 0 <= i < |c.words| ==> c.words[i] == c'.words[i];
        }
      }
    }
  }

  /** The tokens of the extended query are those of the query and the token. */
  lemma TokensOfExtended(query: string, tok: string)
    requires NarrowingToken(tok) && Trim(query) != []
    ensures Trim(query + " " + tok) != []
    ensures Tokens(Trim(query + " " + tok), White) == Tokens(Trim(query), White) + [tok]
  {
    var s := query + " " + tok;
    assert s == query + [' '] + tok;
    TokensTrim(s);
    TokensTrim(query);
    TokensSplit(query, ' ', tok, White);
    TokensSingle(tok, White);
    TokensBlankTrim(s);
  }

  /** A string with a token does not trim to nothing. */
  lemma TokensBlankTrim(s: string)
    requires Tokens(s, White) != []
    ensures Trim(s) != []
  {
    TrimEmptyIffBlank(s);
    if AllWhite(s) {
      TokensBlank(s);
    }
  }

  /** `createFilter`'s token loop. */
  method CreateFilter(query: string) returns (filter: Option<Criteria>)
    ensures filter == FilterOf(query)
  {
    var trimmed := Trim(query);
    if trimmed == [] {
      return None;
    }
    var parts := Tokens(trimmed, White);
    var tags: set<string> := {};
    var channel: string := [];
    var words: seq<string> := [];
    var i := 0;
    while i < |parts|
      invariant 0 <= i <= |parts|
      invariant Criteria(tags, channel, words) == ParseParts(parts[..i])
    {
      var part := parts[i];
      assert parts[..i + 1][..i] == parts[..i];
      if part != [] && part[0] == '#' {
        tags := tags + {Lower(part[1..])};
      } else if ChannelPrefix <= part {
        channel := Lower(part[|ChannelPrefix|..]);
      } else {
        words := words + [Lower(part)];
      }
      i := i + 1;
    }
    assert parts[..i] == parts;
    return Some(Criteria(tags, channel, words));
  }
}
