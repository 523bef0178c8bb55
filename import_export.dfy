/** The popup's JSON import: each entry of an imported array is cleaned,
    skipped when it has no text, given a free id, and appended to the
    store's list, which is then saved. Export only serialises the list. */
module ImportExport {
  import opened Wrappers
  import opened Strings
  import opened Values
  import opened Types
  import opened Storage

  /** `toChannel`: a string that, trimmed, without one leading `@` and
      lowercased, matches `^[a-z0-9_]+$`. */
  function ToChannel(v: Value): (r: Option<string>)
    ensures r.Some? ==> v.Str? && IsChannelName(r.value) && r.value == Lower(StripLeading(Trim(v.s), '@'))
    ensures r.None? ==> !v.Str? || !IsChannelName(Lower(StripLeading(Trim(v.s), '@')))
  {
    if !v.Str? then None
    else
      var trimmed := Lower(StripLeading(Trim(v.s), '@'));
      if trimmed == [] then None
      else if !IsChannelName(trimmed) then None
      else Some(trimmed)
  }

  /** The valid channels among the values, in order. */
  function ToChannels(vs: seq<Value>): (r: seq<string>)
    ensures forall c :: c in r ==> IsChannelName(c)
    ensures forall c :: c in r <==> exists i :: 0 <= i < |vs| && ToChannel(vs[i]) == Some(c)
  {
    if vs == [] then []
    else
      var rest := ToChannels(vs[1..]);
      assert forall i :: 1 <= i < |vs| ==> vs[i] == vs[1..][i - 1];
      ListedChannel(vs[0]) + rest
  }

  /** One listed value's channel, or nothing. */
  function ListedChannel(v: Value): (r: seq<string>)
    ensures forall c :: c in r <==> ToChannel(v) == Some(c)
  {
    match ToChannel(v) case Some(c) => [c] case None => []
  }

  /** `map` and `filter` keep order: converting a concatenation converts each part. */
  lemma {:induction false} ToChannelsAppend(a: seq<Value>, b: seq<Value>)
    ensures ToChannels(a + b) == ToChannels(a) + ToChannels(b)
  {
    if a == [] {
      assert a + b == b;
    } else {
      assert (a + b)[0] == a[0];
      assert (a + b)[1..] == a[1..] + b;
      ToChannelsAppend(a[1..], b);
    }
  }

  /** One value gives its channel, or nothing when it is not a valid name. */
  lemma ToChannelsOne(v: Value)
    ensures ToChannels([v]) == match ToChannel(v) case Some(c) => [c] case None => []
  {
    assert [v][1..] == [];
  }

  /** The valid entries of a record's `channels` array, if it has one. */
  function ListedImportChannels(entry: RawRecord): seq<string> {
    if entry.channels.Arr? then ToChannels(entry.channels.elems) else []
  }

  /** The names `collectChannels` adds to its set, in the order it adds
      them: the listed channels, then the legacy `channel`. */
  function ImportCandidates(entry: RawRecord): (r: seq<string>)
    ensures forall c :: c in r <==> c in ListedImportChannels(entry) || ToChannel(entry.channel) == Some(c)
  {
    var listed := ListedImportChannels(entry);
    match ToChannel(entry.channel) case Some(c) => listed + [c] case None => listed
  }

  /** `collectChannels`: the listed channels, then the legacy `channel`, each
      once, in the order of first insertion. */
  function CollectChannels(entry: RawRecord): (r: seq<string>)
    ensures Distinct(r) && forall c :: c in r ==> IsChannelName(c)
    ensures forall c :: c in r <==> (entry.channels.Arr? && c in ToChannels(entry.channels.elems))
                                    || ToChannel(entry.channel) == Some(c)
    ensures forall i, j {:trigger FirstIndex(ImportCandidates(entry), r[i]), FirstIndex(ImportCandidates(entry), r[j])} :: 0 <= i < j < |r| ==>
              FirstIndex(ImportCandidates(entry), r[i]) < FirstIndex(ImportCandidates(entry), r[j])
  {
    var candidates := ImportCandidates(entry);
    assert forall c :: c in candidates ==> IsChannelName(c);
    Dedup(candidates)
  }

  /** The legacy `channel` comes last, and only when the list does not already hold it. */
  lemma CollectChannelsLegacyLast(entry: RawRecord)
    ensures ToChannel(entry.channel).None? ==> CollectChannels(entry) == Dedup(ListedImportChannels(entry))
    ensures ToChannel(entry.channel).Some? && ToChannel(entry.channel).value !in ListedImportChannels(entry)
            ==> CollectChannels(entry) == Dedup(ListedImportChannels(entry)) + [ToChannel(entry.channel).value]
    ensures ToChannel(entry.channel).Some? && ToChannel(entry.channel).value in ListedImportChannels(entry)
            ==> CollectChannels(entry) == Dedup(ListedImportChannels(entry))
  {
    var listed := ListedImportChannels(entry);
    if ToChannel(entry.channel).Some? {
      var c := ToChannel(entry.channel).value;
      assert ImportCandidates(entry) == listed + [c];
      assert (listed + [c])[..|listed + [c]| - 1] == listed;
    }
  }

  /** `tags.map(String).filter(Boolean)`: converted, never trimmed. */
  function TagStrings(elems: seq<Value>): (r: seq<string>)
    ensures forall t :: t in r ==> t != []
    ensures forall t :: t in r <==> t != [] && exists i :: 0 <= i < |elems| && ToStr(elems[i]) == t
  {
    if elems == [] then []
    else
      var t := ToStr(elems[0]);
      var rest := TagStrings(elems[1..]);
      assert forall i :: 1 <= i < |elems| ==> elems[i] == elems[1..][i - 1];
      (if t == [] then [] else [t]) + rest
  }

  /** `map` and `filter` keep order: converting a concatenation converts each part. */
  lemma {:induction false} TagStringsAppend(a: seq<Value>, b: seq<Value>)
    ensures TagStrings(a + b) == TagStrings(a) + TagStrings(b)
  {
    if a == [] {
      assert a + b == b;
    } else {
      assert (a + b)[0] == a[0];
      assert (a + b)[1..] == a[1..] + b;
      TagStringsAppend(a[1..], b);
    }
  }

  /** One tag is kept, converted and untrimmed, exactly when its string is not empty. */
  lemma TagStringsOne(v: Value)
    ensures TagStrings([v]) == if ToStr(v) == [] then [] else [ToStr(v)]
  {
    assert [v][1..] == [];
  }

  /** The record one entry contributes to the list `all` built so far:
      none without non-blank text; otherwise the trimmed text, the tags and
      channels, and the entry's id unless it is missing, 0 or taken. */
  function ImportEntry(all: seq<CopyPasta>, entry: RawRecord): (r: Option<CopyPasta>)
    ensures r.None? <==> FirstNonBlank([entry.content, entry.description, entry.title]).None?
    ensures r.Some? ==> r.value.content == Trim(FirstNonBlank([entry.content, entry.description, entry.title]).value)
                        && r.value.content != []
    ensures r.Some? ==> r.value.id != 0 && FindIndexById(all, r.value.id) == -1
    ensures r.Some? && entry.id.Num? && entry.id.n != 0 && FindIndexById(all, entry.id.n) == -1
            ==> r.value.id == entry.id.n
    ensures r.Some? && !(entry.id.Num? && entry.id.n != 0 && FindIndexById(all, entry.id.n) == -1)
            ==> r.value.id == NextId(all)
    ensures r.Some? ==> r.value.channels == CollectChannels(entry)
    ensures r.Some? ==> r.value.tags == if entry.tags.Arr? then TagStrings(entry.tags.elems) else []
  {
    var source := FirstNonBlank([entry.content, entry.description, entry.title]);
    var content := if source.Some? then Trim(source.value) else [];
    if content == [] then None
    else
      var id := if entry.id.Num? then entry.id.n else 0;
      var tags := if entry.tags.Arr? then TagStrings(entry.tags.elems) else [];
      var id' := if id == 0 || FindIndexById(all, id) != -1 then NextId(all) else id;
      Some(CopyPasta(id', content, tags, CollectChannels(entry)))
  }

  /** The list after the whole import loop. */
  function ImportAll(all: seq<CopyPasta>, entries: seq<RawRecord>): (r: seq<CopyPasta>)
    ensures |all| <= |r| <= |all| + |entries|
  {
    if entries == [] then all
    else ImportStep(ImportAll(all, entries[..|entries| - 1]), entries[|entries| - 1])
  }

  /** One turn of the loop: the entry's record, if any, is pushed. */
  function ImportStep(all: seq<CopyPasta>, entry: RawRecord): seq<CopyPasta> {
    match ImportEntry(all, entry)
    case None => all
    case Some(cp) => all + [cp]
  }

  /** The list read from the store is kept unchanged at the front. */
  lemma {:induction false} ImportAllKeepsPrefix(all: seq<CopyPasta>, entries: seq<RawRecord>)
    ensures ImportAll(all, entries)[..|all|] == all
  {
    if entries != [] {
      var m := ImportAll(all, entries[..|entries| - 1]);
      var r := ImportStep(m, entries[|entries| - 1]);
      ImportAllKeepsPrefix(all, entries[..|entries| - 1]);
      ImportStepExtends(m, entries[|entries| - 1]);
      assert r[..|all|] == r[..|m|][..|all|];
    }
  }

  /** One turn of the loop keeps the list it was given at the front. */
  lemma ImportStepExtends(m: seq<CopyPasta>, entry: RawRecord)
    ensures |m| <= |ImportStep(m, entry)| && ImportStep(m, entry)[..|m|] == m
  {
    var e := ImportEntry(m, entry);
    if e.Some? {
      assert (m + [e.value])[..|m|] == m;
    }
  }

  /** Importing into a list with distinct ids keeps all ids distinct. */
  lemma {:induction false} ImportAllDistinct(all: seq<CopyPasta>, entries: seq<RawRecord>)
    requires DistinctIds(all)
    ensures DistinctIds(ImportAll(all, entries))
  {
    if entries != [] {
      var m := ImportAll(all, entries[..|entries| - 1]);
      ImportAllDistinct(all, entries[..|entries| - 1]);
      var e := ImportEntry(m, entries[|entries| - 1]);
      if e.Some? {
        AppendFreshDistinct(m, e.value);
      }
    }
  }

  /** An entry with text adds exactly one record, at the end. */
  lemma ImportAllAppends(all: seq<CopyPasta>, entries: seq<RawRecord>, entry: RawRecord)
    requires FirstNonBlank([entry.content, entry.description, entry.title]).Some?
    ensures var m := ImportAll(all, entries);
            ImportAll(all, entries + [entry]) == m + [ImportEntry(m, entry).value]
  {
    assert (entries + [entry])[..|entries|] == entries;
  }

  /** An entry without text adds nothing. */
  lemma ImportAllSkips(all: seq<CopyPasta>, entries: seq<RawRecord>, entry: RawRecord)
    requires FirstNonBlank([entry.content, entry.description, entry.title]).None?
    ensures ImportAll(all, entries + [entry]) == ImportAll(all, entries)
  {
    assert (entries + [entry])[..|entries|] == entries;
  }

  /** `handleImportSelection` after the file is read. `parsed` is the
      imported array, None when the JSON is not an array; a non-object
      element is `Empty`, like a falsy one it contributes nothing. */
  method HandleImport(store: LocalStore, parsed: Option<seq<RawRecord>>) returns (imported: bool)
    modifies store
    ensures imported <==> parsed.Some?
    ensures !imported ==> store.storage == old(store.storage)
    ensures imported ==> store.storage == EncodeAll(Normalize(EncodeAll(ImportAll(Read(old(store.storage)), parsed.value))).data)
  {
    if parsed.None? {
      return false;
    }
    var all := store.GetAll();
    all := ImportLoop(all, parsed.value);
    store.Save(all);
    return true;
  }

  /** The `for (const entry of parsed)` loop. */
  method ImportLoop(start: seq<CopyPasta>, entries: seq<RawRecord>) returns (all: seq<CopyPasta>)
    ensures all == ImportAll(start, entries)
  {
    all := start;
    var i := 0;
    while i < |entries|
      invariant 0 <= i <= |entries|
      invariant all == ImportAll(start, entries[..i])
    {
      var entry := entries[i];
      assert entries[..i + 1][..i] == entries[..i];
      var next := ImportStep(all, entry);
      all := next;
      i := i + 1;
    }
    assert entries[..i] == entries;
  }
}
