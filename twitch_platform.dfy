/** The Twitch page adapter: the channel named by a URL's path, the guard in
    front of the chat-input bridge, and the decoder for the bridge's reply. */
module TwitchPlatform {
  import opened Wrappers
  import opened Strings
  import opened Values

  /** `new URL(u).pathname`, or None where the constructor throws. The URL
      parser itself is not modelled: callers pass one in. */
  type UrlParser = string -> Option<string>

  /** The last non-empty piece, or the empty string when every piece is empty. */
  function LastNonEmpty(pieces: seq<string>): (r: string)
    ensures r == [] <==> forall i :: 0 <= i < |pieces| ==> pieces[i] == []
    ensures r != [] ==> r in pieces
  {
    if pieces == [] then []
    else if pieces[|pieces| - 1] != [] then pieces[|pieces| - 1]
    else
      var init := pieces[..|pieces| - 1];
      assert forall i :: 0 <= i < |init| ==> init[i] == pieces[i];
      LastNonEmpty(init)
  }

  /** A non-empty piece followed only by empty ones is the one returned. */
  lemma {:induction false} LastNonEmptyAt(pieces: seq<string>, j: int)
    requires 0 <= j < |pieces| && pieces[j] != []
    requires forall k :: j < k < |pieces| ==> pieces[k] == []
    ensures LastNonEmpty(pieces) == pieces[j]
    decreases |pieces|
  {
    if j < |pieces| - 1 {
      var init := pieces[..|pieces| - 1];
      LastNonEmptyAt(init, j);
    }
  }

  /** `parts.filter(Boolean)`. */
  function NonEmptyPieces(pieces: seq<string>): (r: seq<string>)
    ensures forall p :: p in r ==> p != [] && p in pieces
  {
    if pieces == [] then []
    else (if pieces[0] == [] then [] else [pieces[0]]) + NonEmptyPieces(pieces[1..])
  }

  /** The last of the non-empty pieces is the last non-empty piece. */
  lemma {:induction false} LastOfNonEmptyPieces(pieces: seq<string>)
    ensures var ne := NonEmptyPieces(pieces);
            (ne == [] <==> LastNonEmpty(pieces) == [])
            && (ne != [] ==> ne[|ne| - 1] == LastNonEmpty(pieces))
    decreases |pieces|
  {
    if pieces != [] {
      var init := pieces[..|pieces| - 1];
      var last := pieces[|pieces| - 1];
      LastOfNonEmptyPieces(init);
      NonEmptyPiecesAppend(init, last);
      assert pieces == init + [last];
      if last == [] {
        assert NonEmptyPieces(pieces) == NonEmptyPieces(init);
        assert LastNonEmpty(pieces) == LastNonEmpty(init);
      } else {
        assert LastNonEmpty(pieces) == last;
      }
    }
  }

  lemma {:induction false} NonEmptyPiecesAppend(pieces: seq<string>, p: string)
    ensures NonEmptyPieces(pieces + [p]) == NonEmptyPieces(pieces) + (if p == [] then [] else [p])
    decreases |pieces|
  {
    if pieces == [] {
      assert [] + [p] == [p];
    } else {
      var whole := pieces + [p];
      assert whole[0] == pieces[0] && whole[1..] == pieces[1..] + [p];
      var head := if pieces[0] == [] then [] else [pieces[0]];
      var tail := if p == [] then [] else [p];
      NonEmptyPiecesAppend(pieces[1..], p);
      assert NonEmptyPieces(whole) == head + (NonEmptyPieces(pieces[1..]) + tail);
      assert head + (NonEmptyPieces(pieces[1..]) + tail) == (head + NonEmptyPieces(pieces[1..])) + tail;
    }
  }

  /** What `getChannel(url)` returns; `undefined` is None. */
  function ChannelOf(parse: UrlParser, url: Option<string>): (r: string)
    ensures url.None? || parse(url.value).None? ==> r == []
  {
    match url
    case None => []
    case Some(u) =>
      match parse(u)
      case None => []
      case Some(path) => LastNonEmpty(Split(path, '/'))
  }

  /** A channel read from a URL is a single path segment. */
  lemma ChannelHasNoSlash(parse: UrlParser, url: Option<string>)
    ensures '/' !in ChannelOf(parse, url)
  {
    if url.Some? && parse(url.value).Some? {
      SplitPiecesFree(parse(url.value).value, '/');
    }
  }

  /** `getChannel`: the path pieces are scanned from the end and the first non-empty one is returned. */
  method GetChannel(parse: UrlParser, url: Option<string>) returns (r: string)
    ensures r == ChannelOf(parse, url)
  {
    if url.None? {
      return [];
    }
    var parsed := parse(url.value);
    if parsed.None? {
      return [];
    }
    var path := Split(parsed.value, '/');
    var i := |path| - 1;
    assert path[..i + 1] == path;
    while i >= 0
      invariant -1 <= i < |path|
      invariant LastNonEmpty(path[..i + 1]) == LastNonEmpty(path)
    {
      assert path[..i + 1][..i] == path[..i];
      if path[i] == [] {
        i := i - 1;
        continue;
      }
      return path[i];
    }
    return [];
  }

  /** `setChatInput`: the text handed to the page bridge; the empty string
      sends nothing. The source promises only this case split, so the
      contract is the split itself. */
  function ChatInputRequest(data: string): (r: Option<string>)
    ensures r.None? <==> data == []
    ensures r.Some? ==> r.value == data
  {
    if data == [] then None else Some(data)
  }

  /** `parseBridgeDetail`: falsy details and non-object, non-string ones give `null`;
      an object is returned as is; a string is parsed, `null` when it is not JSON.
      The contract is this dispatch by shape, which is all the source promises. */
  function ParseBridgeDetail(detail: Value, parseJson: string -> Option<Value>): (r: Value)
    ensures !Truthy(detail) ==> r == Null
    ensures Truthy(detail) && (detail.Obj? || detail.Arr?) ==> r == detail
    ensures detail.Str? && Truthy(detail) ==> r == match parseJson(detail.s) case None => Null case Some(v) => v
    ensures Truthy(detail) && !(detail.Obj? || detail.Arr? || detail.Str?) ==> r == Null
  {
    if !Truthy(detail) then Null
    else if detail.Obj? || detail.Arr? then detail
    else if detail.Str? then
      match parseJson(detail.s)
      case None => Null
      case Some(v) => v
    else Null
  }
}
