/** The emote cache of the content script: a global and a per-channel map
    from emote code to emote, each refilled from four providers at most
    once per 30 minutes, with in-flight guards against parallel fetches. */
module Emotes {
  import opened Wrappers

  datatype Provider = SevenTv | Ffz | Bttv | Twitch

  datatype Emote = Emote(code: string, url: string, provider: Provider)

  /** `CACHE_DURATION`: 30 minutes in milliseconds. */
  const CacheDuration := 1000 * 60 * 30

  /** The settled outcomes of the four provider requests; None is a rejected one. */
  datatype ProviderResults = ProviderResults(
    twitch: Option<seq<Emote>>,
    sevenTv: Option<seq<Emote>>,
    ffz: Option<seq<Emote>>,
    bttv: Option<seq<Emote>>)

  /** The outcomes in the order the cache is filled from them. */
  function InFillOrder(r: ProviderResults): seq<Option<seq<Emote>>> {
    [r.twitch, r.sevenTv, r.ffz, r.bttv]
  }

  /** Every key is the code of the emote stored under it. */
  predicate KeyedByCode(m: map<string, Emote>) {
    forall k :: k in m ==> m[k].code == k
  }

  /** `emotes.forEach(e => m.set(e.code, e))`. */
  function SetAll(m: map<string, Emote>, emotes: seq<Emote>): (r: map<string, Emote>)
    ensures KeyedByCode(m) ==> KeyedByCode(r)
    ensures m.Keys <= r.Keys
  {
    if emotes == [] then m
    else
      var init := emotes[..|emotes| - 1];
      SetAll(m, init)[emotes[|emotes| - 1].code := emotes[|emotes| - 1]]
  }

  /** The codes of a list of emotes. */
  function Codes(emotes: seq<Emote>): set<string> {
    set e | e in emotes :: e.code
  }

  /** The map holds the keys it had and the codes of the emotes set, and no others. */
  lemma {:induction false} SetAllKeys(m: map<string, Emote>, emotes: seq<Emote>)
    ensures SetAll(m, emotes).Keys == m.Keys + Codes(emotes)
  {
    if emotes != [] {
      var init, last := emotes[..|emotes| - 1], emotes[|emotes| - 1];
      SetAllKeys(m, init);
      assert emotes == init + [last];
      assert Codes(emotes) == Codes(init) + {last.code};
    }
  }

  /** The map after the clear and the four fills. */
  function Fill(outcomes: seq<Option<seq<Emote>>>): (r: map<string, Emote>)
    ensures KeyedByCode(r)
  {
    if outcomes == [] then map[]
    else
      var m := Fill(outcomes[..|outcomes| - 1]);
      match outcomes[|outcomes| - 1]
      case None => m
      case Some(es) => SetAll(m, es)
  }

  /** The fulfilled lists one after another. */
  function Fulfilled(outcomes: seq<Option<seq<Emote>>>): seq<Emote> {
    if outcomes == [] then []
    else
      Fulfilled(outcomes[..|outcomes| - 1])
        + match outcomes[|outcomes| - 1] case None => [] case Some(es) => es
  }

  /** The last emote with a given code wins. */
  lemma {:induction false} SetAllLastWins(m: map<string, Emote>, emotes: seq<Emote>, i: nat)
    requires i < |emotes| && forall j :: i < j < |emotes| ==> emotes[j].code != emotes[i].code
    ensures emotes[i].code in SetAll(m, emotes) && SetAll(m, emotes)[emotes[i].code] == emotes[i]
  {
    if i < |emotes| - 1 {
      var init := emotes[..|emotes| - 1];
      assert init[i] == emotes[i];
      SetAllLastWins(m, init, i);
    }
  }

  /** Adding emotes one list after the other is adding their concatenation. */
  lemma {:induction false} SetAllAppend(m: map<string, Emote>, a: seq<Emote>, b: seq<Emote>)
    ensures SetAll(SetAll(m, a), b) == SetAll(m, a + b)
    decreases |b|
  {
    if b == [] {
      assert a + b == a;
    } else {
      var init, last := b[..|b| - 1], b[|b| - 1];
      SetAllAppend(m, a, init);
      SetAllSnoc(m, a + init, last);
      SetAllSnoc(SetAll(m, a), init, last);
      assert b == init + [last];
      assert a + b == (a + init) + [last];
    }
  }

  lemma SetAllSnoc(m: map<string, Emote>, es: seq<Emote>, e: Emote)
    ensures SetAll(m, es + [e]) == SetAll(m, es)[e.code := e]
  {
    assert (es + [e])[..|es|] == es;
  }

  /** Filling from the providers is setting every fulfilled emote in turn:
      rejected providers contribute nothing. */
  lemma {:induction false} FillIsSetAll(outcomes: seq<Option<seq<Emote>>>)
    ensures Fill(outcomes) == SetAll(map[], Fulfilled(outcomes))
  {
    if outcomes != [] {
      var init := outcomes[..|outcomes| - 1];
      FillIsSetAll(init);
      match outcomes[|outcomes| - 1]
      case None =>
        assert Fulfilled(outcomes) == Fulfilled(init) + [];
        assert Fulfilled(init) + [] == Fulfilled(init);
      case Some(es) =>
        SetAllAppend(map[], Fulfilled(init), es);
    }
  }

  /** On the same code, a later provider's emote replaces an earlier one. */
  lemma LaterProviderWins(r: ProviderResults, i: nat)
    requires var all := Fulfilled(InFillOrder(r));
             i < |all| && forall j :: i < j < |all| ==> all[j].code != all[i].code
    ensures var all := Fulfilled(InFillOrder(r));
            var m := Fill(InFillOrder(r));
            all[i].code in m && m[all[i].code] == all[i]
  {
    FillIsSetAll(InFillOrder(r));
    SetAllLastWins(map[], Fulfilled(InFillOrder(r)), i);
  }

  /** `getEmote`: the channel map before the global one. */
  function Lookup(channel: map<string, Emote>, global: map<string, Emote>, code: string): (r: Option<Emote>)
    ensures code in channel ==> r == Some(channel[code])
    ensures code !in channel && code in global ==> r == Some(global[code])
    ensures code !in channel && code !in global ==> r.None?
  {
    if code in channel then Some(channel[code])
    else if code in global then Some(global[code])
    else None
  }

  /** `getAllEmotes` keyed by code: the channel entries override the global ones. */
  function AllEmotes(channel: map<string, Emote>, global: map<string, Emote>): map<string, Emote> {
    global + channel
  }

  /** `getEmote` finds exactly what `getAllEmotes` lists under the code. */
  lemma LookupAgreesWithAll(channel: map<string, Emote>, global: map<string, Emote>, code: string)
    requires KeyedByCode(channel) && KeyedByCode(global)
    ensures var all := AllEmotes(channel, global);
            KeyedByCode(all)
            && (Lookup(channel, global, code).Some? <==> code in all)
            && (code in all ==> Lookup(channel, global, code) == Some(all[code]))
  {
  }

  class EmoteService {
    var global: map<string, Emote>
    var channel: map<string, Emote>
    var lastGlobalFetch: int
    var lastChannelFetch: int
    var currentChannel: string
    var fetchingGlobal: bool
    var fetchingChannel: bool

    predicate Valid()
      reads this
    {
      KeyedByCode(global) && KeyedByCode(channel)
    }

    constructor()
      ensures global == map[] && channel == map[] && lastGlobalFetch == 0 && lastChannelFetch == 0
      ensures currentChannel == [] && !fetchingGlobal && !fetchingChannel
      ensures Valid()
    {
      global := map[];
      channel := map[];
      lastGlobalFetch := 0;
      lastChannelFetch := 0;
      currentChannel := [];
      fetchingGlobal := false;
      fetchingChannel := false;
    }

    function GetEmote(code: string): Option<Emote>
      reads this
    {
      Lookup(channel, global, code)
    }

    function GetAllEmotes(): map<string, Emote>
      reads this
    {
      AllEmotes(channel, global)
    }

    /** The start of `fetchGlobalEmotes`: skipped while fresh or in flight. */
    method BeginGlobalFetch(now: int) returns (started: bool)
      modifies this
      ensures started <==> now - old(lastGlobalFetch) >= CacheDuration && !old(fetchingGlobal)
      ensures fetchingGlobal == (old(fetchingGlobal) || started)
      ensures global == old(global) && channel == old(channel) && lastGlobalFetch == old(lastGlobalFetch)
      ensures lastChannelFetch == old(lastChannelFetch) && currentChannel == old(currentChannel)
      ensures fetchingChannel == old(fetchingChannel)
    {
      if now - lastGlobalFetch < CacheDuration {
        return false;
      }
      if fetchingGlobal {
        return false;
      }
      fetchingGlobal := true;
      return true;
    }

    /** The end of `fetchGlobalEmotes` once the providers have settled at time `now`. */
    method CompleteGlobalFetch(results: ProviderResults, now: int)
      modifies this
      ensures global == Fill(InFillOrder(results)) && lastGlobalFetch == now && !fetchingGlobal
      ensures channel == old(channel) && lastChannelFetch == old(lastChannelFetch)
      ensures currentChannel == old(currentChannel) && fetchingChannel == old(fetchingChannel)
      ensures old(Valid()) ==> Valid()
    {
      global := FillMap(InFillOrder(results));
      lastGlobalFetch := now;
      fetchingGlobal := false;
    }

    /** The start of `fetchChannelEmotes`: skipped for no channel, for the
        same channel while fresh, and while any channel fetch is in flight. */
    method BeginChannelFetch(channelName: string, now: int) returns (started: bool)
      modifies this
      ensures started <==> channelName != []
                           && !(old(currentChannel) == channelName && now - old(lastChannelFetch) < CacheDuration)
                           && !old(fetchingChannel)
      ensures fetchingChannel == (old(fetchingChannel) || started)
      ensures global == old(global) && channel == old(channel) && lastGlobalFetch == old(lastGlobalFetch)
      ensures lastChannelFetch == old(lastChannelFetch) && currentChannel == old(currentChannel)
      ensures fetchingGlobal == old(fetchingGlobal)
    {
      if channelName == [] {
        return false;
      }
      if currentChannel == channelName && now - lastChannelFetch < CacheDuration {
        return false;
      }
      if fetchingChannel {
        return false;
      }
      fetchingChannel := true;
      return true;
    }

    /** The end of `fetchChannelEmotes` for `channelName`. */
    method CompleteChannelFetch(channelName: string, results: ProviderResults, now: int)
      modifies this
      ensures channel == Fill(InFillOrder(results)) && currentChannel == channelName
      ensures lastChannelFetch == now && !fetchingChannel
      ensures global == old(global) && lastGlobalFetch == old(lastGlobalFetch) && fetchingGlobal == old(fetchingGlobal)
      ensures old(Valid()) ==> Valid()
    {
      channel := FillMap(InFillOrder(results));
      currentChannel := channelName;
      lastChannelFetch := now;
      fetchingChannel := false;
    }
  }

  /** `map.clear()` followed by the provider `forEach` loops. */
  method FillMap(outcomes: seq<Option<seq<Emote>>>) returns (m: map<string, Emote>)
    ensures m == Fill(outcomes)
  {
    m := map[];
    var i := 0;
    while i < |outcomes|
      invariant 0 <= i <= |outcomes|
      invariant m == Fill(outcomes[..i])
    {
      assert outcomes[..i + 1][..i] == outcomes[..i];
      var outcome := outcomes[i];
      if outcome.Some? {
        var es := outcome.value;
        var start := m;
        var j := 0;
        while j < |es|
          invariant 0 <= j <= |es|
          invariant m == SetAll(start, es[..j])
        {
          assert es[..j + 1][..j] == es[..j];
          m := m[es[j].code := es[j]];
          j := j + 1;
        }
        assert es[..j] == es;
      }
      i := i + 1;
    }
    assert outcomes[..i] == outcomes;
  }
}
