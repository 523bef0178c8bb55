/** `parseEmotesToHTML`: the text is cut into words and whitespace runs,
    and every word that names a cached emote becomes an image. The DOM
    fragment is modelled as the sequence of its nodes. */
module EmoteParser {
  import opened Wrappers
  import opened Strings
  import opened Emotes

  /** A text node, or an emote image whose `alt` and `title` are the emote's code. */
  datatype Segment = Text(text: string) | Image(emote: Emote)

  /** The longest whitespace prefix. */
  function WhiteRun(s: string): (r: string)
    ensures r <= s && AllWhite(r)
    ensures |r| == |s| || !IsWhite(s[|r|])
    ensures s != [] && IsWhite(s[0]) ==> |r| > 0
  {
    if s == [] || !IsWhite(s[0]) then [] else [s[0]] + WhiteRun(s[1..])
  }

  /** `text.split(/(\s+)/)`: words and the whitespace runs between them,
      alternating, starting and ending with a possibly empty word. */
  function SplitKeepingWhite(s: string): (r: seq<string>)
    ensures r != []
    decreases |s|
  {
    var w := Run(s, White);
    var rest := s[|w|..];
    if rest == [] then [w]
    else
      var sp := WhiteRun(rest);
      [w, sp] + SplitKeepingWhite(rest[|sp|..])
  }

  /** A word, then whitespace runs and words in turn, ending with a word. */
  predicate Alternating(r: seq<string>)
    decreases |r|
  {
    |r| >= 1 && NoSep(White, r[0])
    && (|r| == 1 || (|r| >= 3 && r[1] != [] && AllWhite(r[1]) && Alternating(r[2..])))
  }

  lemma {:induction false} SplitKeepingWhiteAlternates(s: string)
    ensures Alternating(SplitKeepingWhite(s))
    decreases |s|
  {
    var w := Run(s, White);
    var rest := s[|w|..];
    if rest != [] {
      var sp := WhiteRun(rest);
      var tail := SplitKeepingWhite(rest[|sp|..]);
      SplitKeepingWhiteAlternates(rest[|sp|..]);
      assert ([w, sp] + tail)[2..] == tail;
    }
  }

  /** Every piece of an alternating split is a word or a whitespace run. */
  lemma {:induction false} AlternatingPieces(r: seq<string>)
    requires Alternating(r)
    ensures forall i :: 0 <= i < |r| ==> NoSep(White, r[i]) || AllWhite(r[i])
    decreases |r|
  {
    if |r| > 1 {
      AlternatingPieces(r[2..]);
      assert forall i :: 2 <= i < |r| ==> r[i] == r[2..][i - 2];
    }
  }

  function Concat(parts: seq<string>): string {
    if parts == [] then [] else parts[0] + Concat(parts[1..])
  }

  /** The pieces put back together are the text. */
  lemma {:induction false} SplitKeepingWhiteConcat(s: string)
    ensures Concat(SplitKeepingWhite(s)) == s
    decreases |s|
  {
    var w := Run(s, White);
    var rest := s[|w|..];
    PrefixThenRest(s, w);
    if rest != [] {
      var sp := WhiteRun(rest);
      var next := rest[|sp|..];
      assert SplitKeepingWhite(s) == [w, sp] + SplitKeepingWhite(next);
      SplitKeepingWhiteConcat(next);
      ConcatCons2(w, sp, SplitKeepingWhite(next));
      PrefixThenRest(rest, sp);
    }
  }

  lemma PrefixThenRest(s: string, p: string)
    requires p <= s
    ensures s == p + s[|p|..]
  {
  }

  lemma ConcatCons2(a: string, b: string, tail: seq<string>)
    ensures Concat([a, b] + tail) == a + b + Concat(tail)
  {
    var r := [a, b] + tail;
    assert r[1..] == [b] + tail && r[1..][1..] == tail;
  }

  /** The nodes one piece becomes: a blank piece is text as it is; a word
      naming an emote is its image, followed by any text after the trimmed
      word; any other word is text. */
  function WordSegments(word: string, channel: map<string, Emote>, global: map<string, Emote>): (r: seq<Segment>)
    ensures r != []
  {
    var trimmed := Trim(word);
    if trimmed == [] then [Text(word)]
    else
      match Lookup(channel, global, trimmed)
      case Some(emote) =>
        var trailingSpace := word[|trimmed|..];
        [Image(emote)] + (if trailingSpace != [] then [Text(trailingSpace)] else [])
      case None => [Text(word)]
  }

  /** Blank pieces stay text; a word is an image exactly when `getEmote` finds it. */
  lemma WordSegmentsCases(word: string, channel: map<string, Emote>, global: map<string, Emote>)
    ensures var r := WordSegments(word, channel, global);
            && (AllWhite(word) ==> r == [Text(word)])
            && (!AllWhite(word) ==> r != [] && (r[0].Image? <==> Lookup(channel, global, Trim(word)).Some?))
            && (!AllWhite(word) && r[0].Image? ==> r[0].emote == Lookup(channel, global, Trim(word)).value)
            && (!AllWhite(word) && r[0].Text? ==> r == [Text(word)])
  {
    TrimEmptyIffBlank(word);
  }

  /** The nodes of all pieces, in order. */
  function Segments(words: seq<string>, channel: map<string, Emote>, global: map<string, Emote>): (r: seq<Segment>)
    ensures words != [] ==> r != []
  {
    if words == [] then [] else WordSegments(words[0], channel, global) + Segments(words[1..], channel, global)
  }

  /** The text a node shows when its image is replaced by its `alt` text. */
  function Shown(segments: seq<Segment>): string {
    if segments == [] then []
    else (match segments[0] case Text(t) => t case Image(e) => e.code) + Shown(segments[1..])
  }

  lemma {:induction false} ShownAppend(a: seq<Segment>, b: seq<Segment>)
    ensures Shown(a + b) == Shown(a) + Shown(b)
  {
    if a == [] {
      assert a + b == b;
    } else {
      assert (a + b)[1..] == a[1..] + b;
      ShownAppend(a[1..], b);
    }
  }

  /** A word or a whitespace run shows as itself, when every cache key is its emote's code. */
  lemma WordShown(word: string, channel: map<string, Emote>, global: map<string, Emote>)
    requires KeyedByCode(channel) && KeyedByCode(global)
    requires NoSep(White, word) || AllWhite(word)
    ensures Shown(WordSegments(word, channel, global)) == word
  {
    var r := WordSegments(word, channel, global);
    WordSegmentsCases(word, channel, global);
    if !AllWhite(word) {
      TrimFixed(word);
      assert Trim(word) == word;
      match r[0]
      case Image(e) =>
        assert r == [Image(e)];
      case Text(t) =>
    }
  }

  lemma {:induction false} SegmentsShown(words: seq<string>, channel: map<string, Emote>, global: map<string, Emote>)
    requires KeyedByCode(channel) && KeyedByCode(global)
    requires forall i :: 0 <= i < |words| ==> NoSep(White, words[i]) || AllWhite(words[i])
    ensures Shown(Segments(words, channel, global)) == Concat(words)
  {
    if words != [] {
      WordShown(words[0], channel, global);
      SegmentsShown(words[1..], channel, global);
      ShownAppend(WordSegments(words[0], channel, global), Segments(words[1..], channel, global));
    }
  }

  /** Replacing every image by its code gives back the text. */
  lemma ParseRoundTrip(text: string, channel: map<string, Emote>, global: map<string, Emote>)
    requires KeyedByCode(channel) && KeyedByCode(global)
    ensures Shown(Segments(SplitKeepingWhite(text), channel, global)) == text
  {
    SplitKeepingWhiteAlternates(text);
    AlternatingPieces(SplitKeepingWhite(text));
    SegmentsShown(SplitKeepingWhite(text), channel, global);
    SplitKeepingWhiteConcat(text);
  }

  /** `parseEmotesToHTML(text, emoteService)`: the nodes appended one piece at a time. */
  method ParseEmotesToHtml(text: string, service: EmoteService) returns (fragment: seq<Segment>)
    ensures fragment == Segments(SplitKeepingWhite(text), service.channel, service.global)
  {
    var words := SplitKeepingWhite(text);
    ghost var channel, global := service.channel, service.global;
    fragment := [];
    var i := 0;
    while i < |words|
      invariant 0 <= i <= |words|
      invariant fragment + Segments(words[i..], channel, global) == Segments(words, channel, global)
    {
      SegmentsStep(words, i, channel, global);
      var nodes := WordNodes(words[i], service, channel, global);
      fragment := fragment + nodes;
      i := i + 1;
    }
  }

  lemma SegmentsStep(words: seq<string>, i: nat, channel: map<string, Emote>, global: map<string, Emote>)
    requires i < |words|
    ensures Segments(words[i..], channel, global)
            == WordSegments(words[i], channel, global) + Segments(words[i + 1..], channel, global)
  {
    assert words[i..][1..] == words[i + 1..];
  }

  /** One turn of the `forEach`: the nodes of one piece, looked up through the
      service; the ghost maps name the caches the lookup reads. */
  method WordNodes(word: string, service: EmoteService, ghost channel: map<string, Emote>, ghost global: map<string, Emote>)
    returns (r: seq<Segment>)
    requires channel == service.channel && global == service.global
    ensures r == WordSegments(word, channel, global)
  {
    var trimmed := Trim(word);
    if trimmed == [] {
      return [Text(word)];
    }
    var emote := service.GetEmote(trimmed);
    if emote.None? {
      return [Text(word)];
    }
    r := [Image(emote.value)];
    var trailingSpace := word[|trimmed|..];
    if trailingSpace != [] {
      r := r + [Text(trailingSpace)];
    }
  }
}
