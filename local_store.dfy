/** The snippet store: turning whatever `localStorage` holds into canonical
    copypastas, and the add / delete / save / merge operations over it. */
module Storage {
  import opened Wrappers
  import opened Strings
  import opened Values
  import opened Types

  /** `cleanChannel`: a string that, once trimmed and lowercased, matches `^[a-z0-9_]+$`. */
  function CleanChannel(v: Value): (r: Option<string>)
    ensures r.Some? ==> v.Str? && r.value == Lower(Trim(v.s)) && IsChannelName(r.value)
    ensures r.None? ==> !v.Str? || !IsChannelName(Lower(Trim(v.s)))
  {
    if !v.Str? then None
    else
      var trimmed := Lower(Trim(v.s));
      if trimmed == [] then None
      else if !IsChannelName(trimmed) then None
      else Some(trimmed)
  }

  /** `values.map(cleanChannel).filter(Boolean)`. */
  function CleanAll(vs: seq<Value>): (r: seq<string>)
    ensures forall c :: c in r ==> IsChannelName(c)
    ensures |r| <= |vs|
  {
    if vs == [] then []
    else (match CleanChannel(vs[0]) case Some(c) => [c] case None => []) + CleanAll(vs[1..])
  }

  /** `map` and `filter` keep order: cleaning a concatenation cleans each part. */
  lemma {:induction false} CleanAllAppend(a: seq<Value>, b: seq<Value>)
    ensures CleanAll(a + b) == CleanAll(a) + CleanAll(b)
  {
    if a == [] {
      assert a + b == b;
    } else {
      assert (a + b)[0] == a[0];
      assert (a + b)[1..] == a[1..] + b;
      CleanAllAppend(a[1..], b);
    }
  }

  /** The cleaned entries of a record's `channels` array, if it has one. */
  function ListedChannels(raw: RawRecord): seq<string> {
    if raw.channels.Arr? then CleanAll(raw.channels.elems) else []
  }

  /** The names `coerceChannels` adds to its set, in the order it adds them:
      the cleaned `channels` entries, then the cleaned legacy `channel`. */
  function ChannelCandidates(raw: RawRecord): (r: seq<string>)
    ensures forall c :: c in r <==> c in ListedChannels(raw) || CleanChannel(raw.channel) == Some(c)
  {
    var listed := ListedChannels(raw);
    match CleanChannel(raw.channel) case Some(c) => listed + [c] case None => listed
  }

  /** `coerceChannels`: the cleaned `channels` entries followed by the cleaned
      legacy `channel` field, each kept once, in first-occurrence order. */
  function CoerceChannels(raw: RawRecord): (r: seq<string>)
    ensures Distinct(r)
    ensures forall c :: c in r ==> IsChannelName(c)
    ensures forall c :: c in r <==> c in ListedChannels(raw) || CleanChannel(raw.channel) == Some(c)
    ensures forall i, j {:trigger FirstIndex(ChannelCandidates(raw), r[i]), FirstIndex(ChannelCandidates(raw), r[j])} :: 0 <= i < j < |r| ==>
              FirstIndex(ChannelCandidates(raw), r[i]) < FirstIndex(ChannelCandidates(raw), r[j])
  {
    Dedup(ChannelCandidates(raw))
  }

  /** The legacy `channel` comes last, and only when the list does not already hold it. */
  lemma CoerceChannelsLegacyLast(raw: RawRecord)
    ensures CleanChannel(raw.channel).None? ==> CoerceChannels(raw) == Dedup(ListedChannels(raw))
    ensures CleanChannel(raw.channel).Some? && CleanChannel(raw.channel).value !in ListedChannels(raw)
            ==> CoerceChannels(raw) == Dedup(ListedChannels(raw)) + [CleanChannel(raw.channel).value]
    ensures CleanChannel(raw.channel).Some? && CleanChannel(raw.channel).value in ListedChannels(raw)
            ==> CoerceChannels(raw) == Dedup(ListedChannels(raw))
  {
    var listed := ListedChannels(raw);
    if CleanChannel(raw.channel).Some? {
      var c := CleanChannel(raw.channel).value;
      assert ChannelCandidates(raw) == listed + [c];
      assert (listed + [c])[..|listed + [c]| - 1] == listed;
    }
  }

  /** A coerced field together with whether coercion changed the stored form. */
  datatype Coerced<T> = Coerced(value: T, mutated: bool)

  predicate NonBlankString(v: Value) {
    v.Str? && Trim(v.s) != []
  }

  /** `[a, b, c].find(v => typeof v === 'string' && v.trim())`. */
  function FirstNonBlank(vs: seq<Value>): (r: Option<string>)
    ensures r.Some? ==> exists i :: 0 <= i < |vs| && vs[i] == Str(r.value) && Trim(r.value) != []
                                    && forall j :: 0 <= j < i ==> !NonBlankString(vs[j])
    ensures r.None? <==> forall i :: 0 <= i < |vs| ==> !NonBlankString(vs[i])
  {
    if vs == [] then None
    else if NonBlankString(vs[0]) then Some(vs[0].s)
    else FirstNonBlank(vs[1..])
  }

  /** `coerceContent`: the first non-blank string among content, description and title, trimmed. */
  function CoerceContent(raw: RawRecord): (r: Coerced<string>)
    ensures IsTrimmed(r.value)
    ensures r.value == [] <==> !NonBlankString(raw.content) && !NonBlankString(raw.description) && !NonBlankString(raw.title)
  {
    if NonBlankString(raw.content) then
      var trimmed := Trim(raw.content.s);
      Coerced(trimmed, trimmed != raw.content.s)
    else if NonBlankString(raw.description) then Coerced(Trim(raw.description.s), true)
    else if NonBlankString(raw.title) then Coerced(Trim(raw.title.s), true)
    else Coerced([], Truthy(raw.content) || Truthy(raw.description) || Truthy(raw.title))
  }

  /** The content is the first non-blank source, trimmed, or empty; description beats title. */
  lemma CoerceContentFirstNonBlank(raw: RawRecord)
    ensures CoerceContent(raw).value
            == match FirstNonBlank([raw.content, raw.description, raw.title])
               case Some(s) => Trim(s)
               case None => []
  {
    var vs := [raw.content, raw.description, raw.title];
    assert vs[1..] == [raw.description, raw.title];
    assert vs[1..][1..] == [raw.title];
    assert vs[1..][1..][1..] == [];
    if !NonBlankString(raw.content) {
      assert FirstNonBlank(vs) == FirstNonBlank(vs[1..]);
      if !NonBlankString(raw.description) {
        assert FirstNonBlank(vs[1..]) == FirstNonBlank(vs[1..][1..]);
      }
    }
  }

  /** `String(tag).trim()`; the string case, where `String` is the identity, is split out. */
  function TagText(v: Value): (r: string)
    ensures IsTrimmed(r)
  {
    if v.Str? then Trim(v.s) else Trim(ToStr(v))
  }

  /** `tags.map(tag => String(tag).trim()).filter(Boolean)`. */
  function TrimTags(elems: seq<Value>): (r: seq<string>)
    ensures forall t :: t in r ==> t != [] && IsTrimmed(t)
    ensures |r| <= |elems|
  {
    if elems == [] then []
    else
      var t := TagText(elems[0]);
      (if t == [] then [] else [t]) + TrimTags(elems[1..])
  }

  /** `map` and `filter` keep order: trimming a concatenation trims each part. */
  lemma {:induction false} TrimTagsAppend(a: seq<Value>, b: seq<Value>)
    ensures TrimTags(a + b) == TrimTags(a) + TrimTags(b)
  {
    if a == [] {
      assert a + b == b;
    } else {
      assert (a + b)[0] == a[0];
      assert (a + b)[1..] == a[1..] + b;
      TrimTagsAppend(a[1..], b);
    }
  }

  /** One tag survives, trimmed, exactly when its text is not blank. */
  lemma TrimTagsOne(v: Value)
    ensures TrimTags([v]) == if TagText(v) == [] then [] else [TagText(v)]
  {
  }

  /** When no tag is dropped, each result is the trimmed form of the tag at the same index. */
  lemma {:induction false} TrimTagsNoDrop(elems: seq<Value>)
    requires |TrimTags(elems)| == |elems|
    ensures forall i :: 0 <= i < |elems| ==> TrimTags(elems)[i] == TagText(elems[i])
  {
    if elems != [] {
      var t := TagText(elems[0]);
      var rest := TrimTags(elems[1..]);
      assert TrimTags(elems) == (if t == [] then [] else [t]) + rest;
      assert t != [];
      TrimTagsNoDrop(elems[1..]);
      forall i | 0 <= i < |elems|
        ensures TrimTags(elems)[i] == TagText(elems[i])
      {
        if i > 0 {
          assert elems[1..][i - 1] == elems[i];
        }
      }
    }
  }

  /** `coerceTags` as the source writes it: a tag counts as changed when it
      differs from its own trimmed form, which the filtered list already is. */
  function CoerceTagsAsWritten(raw: RawRecord): (r: Coerced<seq<string>>)
    ensures forall t :: t in r.value ==> t != [] && IsTrimmed(t)
    ensures !raw.tags.Arr? ==> r.value == [] && (r.mutated <==> Truthy(raw.tags))
    ensures raw.tags.Arr? ==> r.value == TrimTags(raw.tags.elems)
    ensures raw.tags.Arr? && |r.value| != |raw.tags.elems| ==> r.mutated
  {
    if !raw.tags.Arr? then Coerced([], Truthy(raw.tags))
    else
      var elems := raw.tags.elems;
      var mapped := TrimTags(elems);
      Coerced(mapped, |mapped| != |elems|
                      || exists idx :: 0 <= idx < |mapped| && mapped[idx] != TagText(elems[idx]))
  }

  /** As written, the per-tag comparison never fires: only dropped tags mark the record changed. */
  lemma CoerceTagsAsWrittenCountsOnlyDrops(raw: RawRecord)
    requires raw.tags.Arr?
    ensures CoerceTagsAsWritten(raw).mutated <==> |TrimTags(raw.tags.elems)| != |raw.tags.elems|
  {
    if |TrimTags(raw.tags.elems)| == |raw.tags.elems| {
      TrimTagsNoDrop(raw.tags.elems);
    }
  }

  /** The input that shows it: a stored tag `" a "` is read as `"a"` but not flagged. */
  lemma CoerceTagsAsWrittenMissesTrim()
    ensures var raw := Empty.(tags := Arr([Str(" a ")]));
            !CoerceTagsAsWritten(raw).mutated
            && raw.tags != Arr(StrValues(CoerceTagsAsWritten(raw).value))
  {
    var raw := Empty.(tags := Arr([Str(" a ")]));
    assert TrimStart(" a ") == "a ";
    assert TrimEnd("a ") == "a";
    assert TagText(Str(" a ")) == "a";
    assert TrimTags([Str(" a ")]) == ["a"];
    CoerceTagsAsWrittenCountsOnlyDrops(raw);
    assert StrValues(["a"]) == [Str("a")];
  }

  /** `coerceTags` with the comparison the surrounding code intends: a tag
      counts as changed unless it was stored as exactly that string. */
  function CoerceTags(raw: RawRecord): (r: Coerced<seq<string>>)
    ensures forall t :: t in r.value ==> t != [] && IsTrimmed(t)
    ensures !raw.tags.Arr? ==> r.value == [] && (r.mutated <==> Truthy(raw.tags))
    ensures raw.tags.Arr? ==> r.value == TrimTags(raw.tags.elems)
    ensures raw.tags.Arr? && |r.value| != |raw.tags.elems| ==> r.mutated
  {
    if !raw.tags.Arr? then Coerced([], Truthy(raw.tags))
    else
      var elems := raw.tags.elems;
      var mapped := TrimTags(elems);
      Coerced(mapped, |mapped| != |elems|
                      || exists idx :: 0 <= idx < |mapped| && Str(mapped[idx]) != elems[idx])
  }

  /** Corrected: an unflagged tag array is stored exactly as it is read. */
  lemma CoerceTagsFlagsRewrite(raw: RawRecord)
    requires raw.tags.Arr? && !CoerceTags(raw).mutated
    ensures raw.tags == Arr(StrValues(CoerceTags(raw).value))
  {
    var elems := raw.tags.elems;
    assert elems == StrValues(TrimTags(elems));
  }

  /** The record `coerceItem` produces and whether it differs from what was stored. */
  datatype ItemResult = ItemResult(item: CopyPasta, mutated: bool)

  /** `coerceItem(raw, idx)`, with `coerceTags` as the source writes it. */
  function CoerceItem(raw: RawRecord, idx: int): (r: ItemResult)
    ensures r.item.id == if raw.id.Num? then raw.id.n else idx + 1
    ensures r.item.tags == CoerceTagsAsWritten(raw).value && r.item.channels == CoerceChannels(raw)
    ensures r.item.content == CoerceContent(raw).value
    ensures r.mutated <==> !raw.id.Num? || CoerceContent(raw).mutated || CoerceTagsAsWritten(raw).mutated
                           || Truthy(raw.channel)
                           || (raw.channels.Arr? && |raw.channels.elems| != |CoerceChannels(raw)|)
                           || Truthy(raw.title) || Truthy(raw.description)
  {
    CoerceItemWith(raw, idx, CoerceTagsAsWritten(raw))
  }

  /** `coerceItem(raw, idx)` with the intended tag comparison. */
  function CoerceItemIntended(raw: RawRecord, idx: int): (r: ItemResult)
    ensures r.item.id == CoerceItem(raw, idx).item.id && r.item.content == CoerceItem(raw, idx).item.content
    ensures r.item.tags == CoerceTags(raw).value && r.item.channels == CoerceChannels(raw)
    ensures r.mutated <==> !raw.id.Num? || CoerceContent(raw).mutated || CoerceTags(raw).mutated
                           || Truthy(raw.channel)
                           || (raw.channels.Arr? && |raw.channels.elems| != |CoerceChannels(raw)|)
                           || Truthy(raw.title) || Truthy(raw.description)
  {
    CoerceItemWith(raw, idx, CoerceTags(raw))
  }

  /** The body of `coerceItem`, given the coerced tags. */
  function CoerceItemWith(raw: RawRecord, idx: int, tags: Coerced<seq<string>>): ItemResult {
    var id := if raw.id.Num? then raw.id.n else idx + 1;
    var content := CoerceContent(raw);
    var channels := CoerceChannels(raw);
    var channelsMutated := Truthy(raw.channel) || (raw.channels.Arr? && |raw.channels.elems| != |channels|);
    var extraFields := Truthy(raw.title) || Truthy(raw.description);
    ItemResult(CopyPasta(id, content.value, tags.value, channels),
               !raw.id.Num? || content.mutated || tags.mutated || channelsMutated || extraFields)
  }

  datatype Normalized = Normalized(data: seq<CopyPasta>, mutated: bool)

  /** `normalize`: one canonical record per stored entry, never dropping one;
      a numeric id is kept and any other id becomes the position plus one. */
  function Normalize(raws: seq<RawRecord>): (r: Normalized)
    ensures |r.data| == |raws|
  {
    MapCoerce(raws, CoerceItem)
  }

  /** The `forEach` of `normalize`, for any per-record coercion: each record
      mapped with its index, the flag raised when any coercion raises it. */
  function MapCoerce(raws: seq<RawRecord>, coerce: (RawRecord, int) -> ItemResult): (r: Normalized)
    ensures |r.data| == |raws|
    decreases |raws|
  {
    if raws == [] then Normalized([], false)
    else
      var k := |raws| - 1;
      var prev := MapCoerce(raws[..k], coerce);
      var last := coerce(raws[k], k);
      Normalized(prev.data + [last.item], prev.mutated || last.mutated)
  }

  lemma {:induction false} MapCoerceItems(raws: seq<RawRecord>, coerce: (RawRecord, int) -> ItemResult)
    ensures forall i :: 0 <= i < |raws| ==> MapCoerce(raws, coerce).data[i] == coerce(raws[i], i).item
    ensures MapCoerce(raws, coerce).mutated <==> exists i :: 0 <= i < |raws| && coerce(raws[i], i).mutated
    decreases |raws|
  {
    if raws != [] {
      var k := |raws| - 1;
      var init := raws[..k];
      MapCoerceItems(init, coerce);
      assert forall i :: 0 <= i < k ==> init[i] == raws[i];
    }
  }

  /** Record i is the coerced stored entry i, and the result is flagged
      exactly when some entry was. */
  lemma NormalizeItems(raws: seq<RawRecord>)
    ensures forall i :: 0 <= i < |raws| ==> Normalize(raws).data[i] == CoerceItem(raws[i], i).item
    ensures Normalize(raws).mutated <==> exists i :: 0 <= i < |raws| && CoerceItem(raws[i], i).mutated
  {
    MapCoerceItems(raws, CoerceItem);
  }

  /** A numeric id is kept and any other id becomes the position plus one. */
  lemma NormalizeIds(raws: seq<RawRecord>)
    ensures forall i :: 0 <= i < |raws| ==>
              Normalize(raws).data[i].id == (if raws[i].id.Num? then raws[i].id.n else i + 1)
  {
    NormalizeItems(raws);
  }

  /** The canonical shape every normalised record has. */
  predicate Canonical(cp: CopyPasta) {
    && IsTrimmed(cp.content)
    && (forall t :: t in cp.tags ==> t != [] && IsTrimmed(t))
    && (forall c :: c in cp.channels ==> IsChannelName(c))
    && Distinct(cp.channels)
  }

  lemma CoerceItemCanonical(raw: RawRecord, idx: int)
    ensures Canonical(CoerceItem(raw, idx).item)
  {
    var item := CoerceItem(raw, idx).item;
    assert item.content == CoerceContent(raw).value && IsTrimmed(CoerceContent(raw).value);
    assert item.tags == CoerceTagsAsWritten(raw).value;
    assert item.channels == CoerceChannels(raw);
  }

  /** A trimmed string is its own tag text. */
  lemma TagTextOfTrimmed(t: string)
    requires IsTrimmed(t)
    ensures TagText(Str(t)) == t
  {
    TrimFixed(t);
  }

  lemma {:induction false} TrimTagsOfCanonical(tags: seq<string>)
    requires forall t :: t in tags ==> t != [] && IsTrimmed(t)
    ensures TrimTags(StrValues(tags)) == tags
  {
    if tags != [] {
      TagTextOfTrimmed(tags[0]);
      assert StrValues(tags)[1..] == StrValues(tags[1..]);
      assert forall t :: t in tags[1..] ==> t in tags;
      TrimTagsOfCanonical(tags[1..]);
      assert tags == [tags[0]] + tags[1..];
    }
  }

  /** A channel name is its own cleaned form. */
  lemma CleanChannelOfName(c: string)
    requires IsChannelName(c)
    ensures CleanChannel(Str(c)) == Some(c)
  {
    ChannelNameCanonical(c);
    var t := Lower(Trim(c));
    assert t == c;
  }

  lemma {:induction false} CleanAllOfNames(chs: seq<string>)
    requires forall c :: c in chs ==> IsChannelName(c)
    ensures CleanAll(StrValues(chs)) == chs
  {
    if chs != [] {
      var vs := StrValues(chs);
      CleanChannelOfName(chs[0]);
      assert vs[1..] == StrValues(chs[1..]);
      CleanAllOfNames(chs[1..]);
      assert chs == [chs[0]] + chs[1..];
    }
  }

  /** A canonical record reads back as itself, unflagged. */
  lemma CoerceEncodedCanonical(cp: CopyPasta, idx: int)
    requires Canonical(cp)
    ensures CoerceItem(Encode(cp), idx) == ItemResult(cp, false)
  {
    ContentOfCanonical(cp);
    TagsOfCanonical(cp);
    ChannelsOfCanonical(cp);
  }

  lemma ContentOfCanonical(cp: CopyPasta)
    requires IsTrimmed(cp.content)
    ensures CoerceContent(Encode(cp)) == Coerced(cp.content, false)
  {
    TrimFixed(cp.content);
    if Trim(cp.content) == [] {
      assert cp.content == [];
    }
  }

  lemma TagsOfCanonical(cp: CopyPasta)
    requires forall t :: t in cp.tags ==> t != [] && IsTrimmed(t)
    ensures CoerceTagsAsWritten(Encode(cp)) == Coerced(cp.tags, false)
    ensures CoerceTags(Encode(cp)) == Coerced(cp.tags, false)
  {
    TrimTagsOfCanonical(cp.tags);
    CoerceTagsAsWrittenCountsOnlyDrops(Encode(cp));
  }

  lemma ChannelsOfCanonical(cp: CopyPasta)
    requires forall c :: c in cp.channels ==> IsChannelName(c)
    requires Distinct(cp.channels)
    ensures CoerceChannels(Encode(cp)) == cp.channels
  {
    CleanAllOfNames(cp.channels);
    DedupDistinct(cp.channels);
  }

  /** Normalising canonical data changes nothing and flags nothing. */
  lemma NormalizeCanonical(items: seq<CopyPasta>)
    requires forall i :: 0 <= i < |items| ==> Canonical(items[i])
    ensures Normalize(EncodeAll(items)) == Normalized(items, false)
  {
    var raws := EncodeAll(items);
    forall i | 0 <= i < |items|
      ensures CoerceItem(raws[i], i) == ItemResult(items[i], false)
    {
      CoerceEncodedCanonical(items[i], i);
    }
    NormalizeItems(raws);
    assert Normalize(raws).data == items;
  }

  /** Re-keying a record keeps it canonical. */
  lemma CanonicalIgnoresId(cp: CopyPasta, id: int)
    requires Canonical(cp)
    ensures Canonical(cp.(id := id))
  {
    var cp' := cp.(id := id);
    assert cp'.content == cp.content && cp'.tags == cp.tags && cp'.channels == cp.channels;
  }

  /** Every normalised record is canonical. */
  lemma NormalizeOutputCanonical(raws: seq<RawRecord>)
    ensures forall i :: 0 <= i < |raws| ==> Canonical(Normalize(raws).data[i])
  {
    NormalizeItems(raws);
    forall i | 0 <= i < |raws| ensures Canonical(Normalize(raws).data[i]) {
      CoerceItemCanonical(raws[i], i);
    }
  }

  /** Normalisation is idempotent: what it produces normalises to itself. */
  lemma NormalizeIdempotent(raws: seq<RawRecord>)
    ensures Normalize(EncodeAll(Normalize(raws).data)) == Normalized(Normalize(raws).data, false)
  {
    NormalizeOutputCanonical(raws);
    NormalizeCanonical(Normalize(raws).data);
  }

  /** The store-level consequence of the tag comparison: a stored record whose
      only flaw is an untrimmed tag is read with the tag trimmed, yet `getAll`
      leaves the stored array as it was; the intended comparison flags it. */
  lemma GetAllKeepsUntrimmedTag()
    ensures var raw := Empty.(id := Num(1), content := Str("x"), tags := Arr([Str(" a ")]), channels := Arr([]));
            Read([raw]) == [CopyPasta(1, "x", ["a"], [])]
            && Healed([raw]) == [raw]
            && MapCoerce([raw], CoerceItemIntended).mutated
  {
    var raw := Empty.(id := Num(1), content := Str("x"), tags := Arr([Str(" a ")]), channels := Arr([]));
    UntrimmedTagItem(raw);
    MapCoerceOne(raw, CoerceItem);
    MapCoerceOne(raw, CoerceItemIntended);
  }

  lemma UntrimmedTagItem(raw: RawRecord)
    requires raw == Empty.(id := Num(1), content := Str("x"), tags := Arr([Str(" a ")]), channels := Arr([]))
    ensures CoerceItem(raw, 0) == ItemResult(CopyPasta(1, "x", ["a"], []), false)
    ensures CoerceItemIntended(raw, 0).mutated
  {
    assert TrimStart(" a ") == "a ";
    assert TrimEnd("a ") == "a";
    assert TrimTags([Str(" a ")]) == ["a"];
    CoerceTagsAsWrittenCountsOnlyDrops(raw);
    assert CoerceTagsAsWritten(raw) == Coerced(["a"], false);
    assert CoerceTags(raw).mutated;
    ContentOfCanonical(CopyPasta(1, "x", [], []));
    assert CoerceContent(raw) == Coerced("x", false);
    assert CoerceChannels(raw) == [];
  }

  lemma MapCoerceOne(raw: RawRecord, coerce: (RawRecord, int) -> ItemResult)
    ensures MapCoerce([raw], coerce) == Normalized([coerce(raw, 0).item], coerce(raw, 0).mutated)
  {
    assert [raw][..0] == [];
  }

  /** What `getAll` returns for the stored array. */
  function Read(storage: seq<RawRecord>): (r: seq<CopyPasta>)
    ensures |r| == |storage|
  {
    Normalize(storage).data
  }

  /** The stored array after `getAll`: rewritten in canonical form only when normalising changed it. */
  function Healed(storage: seq<RawRecord>): (r: seq<RawRecord>)
    ensures r == storage || r == EncodeAll(Read(storage))
  {
    if Normalize(storage).mutated then EncodeAll(Normalize(storage).data) else storage
  }

  /** The self-healing write of `getAll` is invisible to later reads and happens at most once. */
  lemma ReadHealed(storage: seq<RawRecord>)
    ensures Read(Healed(storage)) == Read(storage)
    ensures Healed(Healed(storage)) == Healed(storage)
  {
    NormalizeIdempotent(storage);
  }

  /** `save` followed by `getAll` returns `normalize` of what was saved, without rewriting it. */
  lemma SaveThenRead(cps: seq<CopyPasta>)
    ensures var saved := EncodeAll(Normalize(EncodeAll(cps)).data);
            Read(saved) == Normalize(EncodeAll(cps)).data && Healed(saved) == saved
  {
    NormalizeIdempotent(EncodeAll(cps));
  }

  /** The id `merge` gives an incoming record: kept unless already taken in the list so far. */
  function Rekey(acc: seq<CopyPasta>, entry: CopyPasta): CopyPasta {
    if FindIndexById(acc, entry.id) == -1 then entry else entry.(id := NextId(acc))
  }

  /** The list `merge` builds: every incoming record appended in order, re-keyed against the list so far. */
  function MergeInto(acc: seq<CopyPasta>, incoming: seq<CopyPasta>): (r: seq<CopyPasta>)
    ensures |r| == |acc| + |incoming|
    decreases |incoming|
  {
    if incoming == [] then acc
    else
      var m := MergeInto(acc, incoming[..|incoming| - 1]);
      m + [Rekey(m, incoming[|incoming| - 1])]
  }

  /** Existing records stay unchanged at the front; each incoming record follows
      in order, re-keyed exactly when its id is already in the list before it. */
  lemma {:induction false} MergeIntoShape(acc: seq<CopyPasta>, incoming: seq<CopyPasta>)
    ensures var r := MergeInto(acc, incoming);
            && r[..|acc|] == acc
            && forall k :: 0 <= k < |incoming| ==> r[|acc| + k] == Rekey(r[..|acc| + k], incoming[k])
    decreases |incoming|
  {
    if incoming != [] {
      var init := incoming[..|incoming| - 1];
      var m := MergeInto(acc, init);
      MergeIntoShape(acc, init);
      var r := MergeInto(acc, incoming);
      assert r == m + [Rekey(m, incoming[|incoming| - 1])];
      assert r[..|acc|] == m[..|acc|];
      forall k | 0 <= k < |incoming|
        ensures r[|acc| + k] == Rekey(r[..|acc| + k], incoming[k])
      {
        if k < |init| {
          assert r[|acc| + k] == m[|acc| + k];
          assert r[..|acc| + k] == m[..|acc| + k];
          assert incoming[k] == init[k];
        } else {
          assert r[..|acc| + k] == m;
        }
      }
    }
  }

  /** Merging into a list with distinct ids keeps all ids distinct. */
  lemma {:induction false} MergeIntoDistinct(acc: seq<CopyPasta>, incoming: seq<CopyPasta>)
    requires DistinctIds(acc)
    ensures DistinctIds(MergeInto(acc, incoming))
    decreases |incoming|
  {
    if incoming != [] {
      var m := MergeInto(acc, incoming[..|incoming| - 1]);
      MergeIntoDistinct(acc, incoming[..|incoming| - 1]);
      var e := Rekey(m, incoming[|incoming| - 1]);
      assert forall i :: 0 <= i < |m| ==> m[i].id != e.id;
      assert DistinctIds(m + [e]);
    }
  }

  predicate AllCanonical(items: seq<CopyPasta>) {
    forall i :: 0 <= i < |items| ==> Canonical(items[i])
  }

  /** Merging canonical records yields canonical records. */
  lemma {:induction false} MergeIntoCanonical(acc: seq<CopyPasta>, incoming: seq<CopyPasta>)
    requires AllCanonical(acc) && AllCanonical(incoming)
    ensures AllCanonical(MergeInto(acc, incoming))
    decreases |incoming|
  {
    if incoming != [] {
      var init := incoming[..|incoming| - 1];
      var last := incoming[|incoming| - 1];
      assert AllCanonical(init);
      MergeIntoCanonical(acc, init);
      var m := MergeInto(acc, init);
      var e := Rekey(m, last);
      if e != last {
        CanonicalIgnoresId(last, e.id);
      }
      assert MergeInto(acc, incoming) == m + [e];
    }
  }

  /** The loop of `merge`: each incoming record is re-keyed against the list built so far and appended. */
  method AppendRekeyed(items: seq<CopyPasta>, incoming: seq<CopyPasta>) returns (merged: seq<CopyPasta>)
    ensures merged == MergeInto(items, incoming)
  {
    merged := items;
    var i := 0;
    while i < |incoming|
      invariant 0 <= i <= |incoming|
      invariant merged == MergeInto(items, incoming[..i])
    {
      var entry := incoming[i];
      var index := FindIndexById(merged, entry.id);
      if index != -1 {
        entry := entry.(id := NextId(merged));
      }
      assert incoming[..i + 1][..i] == incoming[..i];
      merged := merged + [entry];
      i := i + 1;
    }
    assert incoming[..i] == incoming;
  }

  /** The record `add` stores for a draft: the next free id, trimmed
      content, trimmed non-empty tags and the valid channels, duplicates kept. */
  function Added(items: seq<CopyPasta>, cp: CopyPasta): (r: CopyPasta)
    ensures r.id == NextId(items) && FindIndexById(items, r.id) == -1
    ensures r.content == Trim(cp.content) && IsTrimmed(r.content)
    ensures r.tags == TrimTags(StrValues(cp.tags)) && forall t :: t in r.tags ==> t != [] && IsTrimmed(t)
    ensures r.channels == CleanAll(StrValues(cp.channels)) && forall c :: c in r.channels ==> IsChannelName(c)
  {
    CopyPasta(NextId(items), Trim(cp.content), TrimTags(StrValues(cp.tags)), CleanAll(StrValues(cp.channels)))
  }

  /** `add` cleans channels without de-duplicating them: a valid name given
      twice is stored twice. */
  lemma AddedKeepsDuplicateChannels(items: seq<CopyPasta>, cp: CopyPasta, c: string)
    requires IsChannelName(c) && cp.channels == [c, c]
    ensures Added(items, cp).channels == [c, c]
  {
    CleanChannelOfName(c);
    assert StrValues([c, c]) == [Str(c)] + [Str(c)];
    assert CleanAll([Str(c)]) == [c] by {
      assert [Str(c)][1..] == [];
    }
    CleanAllAppend([Str(c)], [Str(c)]);
  }

  /** The store. `storage` is the array parsed from `localStorage` under the
      store's key; unreadable JSON reads as the empty array. */
  class LocalStore {
    var storage: seq<RawRecord>

    constructor(initial: seq<RawRecord>)
      ensures storage == initial
    {
      storage := initial;
    }

    /** `hydrate`: the normalised list, written back when normalising changed it. */
    method Hydrate() returns (items: seq<CopyPasta>)
      modifies this
      ensures items == Read(old(storage))
      ensures storage == Healed(old(storage))
    {
      var current := storage;
      if |current| > 0 {
        var n := Normalize(current);
        if n.mutated {
          storage := EncodeAll(n.data);
        }
        items := n.data;
      } else {
        items := [];
      }
    }

    /** `getAll`: the self-healing read. */
    method GetAll() returns (items: seq<CopyPasta>)
      modifies this
      ensures items == Read(old(storage))
      ensures storage == Healed(old(storage))
    {
      var current := storage;
      if |current| > 0 {
        var n := Normalize(current);
        if n.mutated {
          storage := EncodeAll(n.data);
        }
        items := n.data;
      } else {
        items := Hydrate();
      }
    }

    /** `add`: ignores the draft's id, appends the cleaned record with the next id and returns it.
        Channels are cleaned but not de-duplicated. */
    method Add(cp: CopyPasta) returns (stored: CopyPasta)
      modifies this
      ensures var items := Read(old(storage));
              stored == Added(items, cp) && storage == EncodeAll(items + [stored])
    {
      var items := Hydrate();
      var channels := CleanAll(StrValues(cp.channels));
      stored := CopyPasta(NextId(items), Trim(cp.content), TrimTags(StrValues(cp.tags)), channels);
      items := items + [stored];
      storage := EncodeAll(items);
    }

    /** `delete`: removes the first record with that id; an absent id leaves the list as read. */
    method Delete(id: int)
      modifies this
      ensures var items := Read(old(storage));
              var i := FindIndexById(items, id);
              storage == if i == -1 then Healed(old(storage)) else EncodeAll(RemoveAt(items, i))
    {
      var items := Hydrate();
      var i := FindIndexById(items, id);
      if i == -1 {
        return;
      }
      items := RemoveAt(items, i);
      storage := EncodeAll(items);
    }

    /** `save`: replaces everything with the normalised list. */
    method Save(cps: seq<CopyPasta>)
      modifies this
      ensures storage == EncodeAll(Normalize(EncodeAll(cps)).data)
    {
      var n := Normalize(EncodeAll(cps));
      storage := EncodeAll(n.data);
    }

    /** `merge`: appends the normalised incoming records to the list read,
        re-keying every id already taken, and saves the result. */
    method Merge(cps: seq<RawRecord>)
      modifies this
      ensures storage == EncodeAll(MergeInto(Read(old(storage)), Normalize(cps).data))
    {
      var items := GetAll();
      var normalized := Normalize(cps).data;
      NormalizeOutputCanonical(old(storage));
      NormalizeOutputCanonical(cps);
      MergeIntoCanonical(items, normalized);
      items := AppendRekeyed(items, normalized);
      NormalizeCanonical(items);
      Save(items);
    }
  }
}
