/** The page widget: the channel-scoped working copy of the store, the list
    it renders, keyboard selection, reordering and the entry-dialog guard. */
module Widget {
  import opened Wrappers
  import opened Strings
  import opened Values
  import opened Types
  import opened Storage
  import opened TwitchPlatform
  import opened ContentCopyPasta
  import opened Search
  import DragDrop

  /** `items.filter(channelFilter(channel))`. */
  function Scoped(channel: string, items: seq<CopyPasta>): (r: seq<CopyPasta>)
    ensures |r| <= |items|
    ensures forall x :: x in r <==> x in items && ChannelFilter(channel, x)
  {
    if items == [] then []
    else (if ChannelFilter(channel, items[0]) then [items[0]] else []) + Scoped(channel, items[1..])
  }

  /** The filter keeps store order: scoping a concatenation scopes each part. */
  lemma {:induction false} ScopedAppend(channel: string, a: seq<CopyPasta>, b: seq<CopyPasta>)
    ensures Scoped(channel, a + b) == Scoped(channel, a) + Scoped(channel, b)
  {
    if a == [] {
      assert a + b == b;
    } else {
      assert (a + b)[0] == a[0];
      assert (a + b)[1..] == a[1..] + b;
      ScopedAppend(channel, a[1..], b);
    }
  }

  /** One record is kept exactly when it passes the channel filter. */
  lemma ScopedOne(channel: string, x: CopyPasta)
    ensures Scoped(channel, [x]) == if ChannelFilter(channel, x) then [x] else []
  {
  }

  /** `persistChannelOrder`'s map: each in-scope slot of the full list takes the
      next record of the queue, out-of-scope slots and slots left once the queue
      is empty keep their own record. */
  function QueueMerge(all: seq<CopyPasta>, queue: seq<CopyPasta>, channel: string): (r: seq<CopyPasta>)
    ensures |r| == |all|
  {
    if all == [] then []
    else if !ChannelFilter(channel, all[0]) then [all[0]] + QueueMerge(all[1..], queue, channel)
    else if queue == [] then [all[0]] + QueueMerge(all[1..], queue, channel)
    else [queue[0]] + QueueMerge(all[1..], queue[1..], channel)
  }

  /** Slot k of the merge: out-of-scope records stay; the in-scope slot with j
      in-scope slots before it takes queue[j] when there is one. */
  lemma {:induction false} QueueMergeSlot(all: seq<CopyPasta>, queue: seq<CopyPasta>, channel: string, k: int)
    requires 0 <= k < |all|
    ensures var j := |Scoped(channel, all[..k])|;
            QueueMerge(all, queue, channel)[k]
            == if !ChannelFilter(channel, all[k]) then all[k]
               else if j < |queue| then queue[j]
               else all[k]
    decreases k
  {
    if k > 0 {
      var rest := if ChannelFilter(channel, all[0]) && queue != [] then queue[1..] else queue;
      QueueMergeSlot(all[1..], rest, channel, k - 1);
      QueueMergeTail(all, queue, channel, k);
      ScopedPrefixTail(all, channel, k);
    }
  }

  lemma QueueMergeTail(all: seq<CopyPasta>, queue: seq<CopyPasta>, channel: string, k: int)
    requires 0 < k < |all|
    ensures var rest := if ChannelFilter(channel, all[0]) && queue != [] then queue[1..] else queue;
            QueueMerge(all, queue, channel)[k] == QueueMerge(all[1..], rest, channel)[k - 1]
  {
  }

  lemma ScopedPrefixTail(all: seq<CopyPasta>, channel: string, k: int)
    requires 0 < k <= |all|
    ensures |Scoped(channel, all[..k])|
            == (if ChannelFilter(channel, all[0]) then 1 else 0) + |Scoped(channel, all[1..][..k - 1])|
  {
    assert all[..k][1..] == all[1..][..k - 1];
    assert all[..k][0] == all[0];
  }

  /** Writing back the order the full list already has changes nothing. */
  lemma {:induction false} QueueMergeUnchanged(all: seq<CopyPasta>, channel: string)
    ensures QueueMerge(all, Scoped(channel, all), channel) == all
  {
    if all != [] {
      var s1 := Scoped(channel, all[1..]);
      QueueMergeUnchanged(all[1..], channel);
      assert all == [all[0]] + all[1..];
      if ChannelFilter(channel, all[0]) {
        assert Scoped(channel, all) == [all[0]] + s1;
        assert ([all[0]] + s1)[1..] == s1;
        assert QueueMerge(all, [all[0]] + s1, channel) == [all[0]] + QueueMerge(all[1..], s1, channel);
      } else {
        assert Scoped(channel, all) == s1;
        assert QueueMerge(all, s1, channel) == [all[0]] + QueueMerge(all[1..], s1, channel);
      }
    }
  }

  /** `items.splice(source, 1)` followed by `items.splice(target, 0, moved)`. */
  function MoveItem<T>(items: seq<T>, source: int, target: int): (r: seq<T>)
    requires 0 <= source < |items| && 0 <= target < |items|
    ensures |r| == |items|
    ensures r[target] == items[source]
    ensures RemoveAt(r, target) == RemoveAt(items, source)
  {
    var moved := items[source];
    var rest := RemoveAt(items, source);
    assert r0: RemoveAt(rest[..target] + [moved] + rest[target..], target) == rest by {
      assert (rest[..target] + [moved] + rest[target..])[..target] == rest[..target];
      assert (rest[..target] + [moved] + rest[target..])[target + 1..] == rest[target..];
    }
    rest[..target] + [moved] + rest[target..]
  }

  /** The drop lands in the gap the indicator showed: moving the source row to
      `applyReorder`'s target is inserting it at the gap and removing it from
      where it was. */
  lemma ReorderDropsIntoGap<T>(items: seq<T>, state: DragDrop.DragState)
    requires 0 <= state.sourceIndex < |items| && 0 <= state.insertIndex <= |items|
    requires DragDrop.ApplyReorder(state).Some?
    ensures var src := state.sourceIndex;
            var gap := state.insertIndex;
            var inserted := items[..gap] + [items[src]] + items[gap..];
            MoveItem(items, src, DragDrop.ApplyReorder(state).value.targetIndex)
            == RemoveAt(inserted, if src < gap then src else src + 1)
  {
    if state.sourceIndex < state.insertIndex {
      MoveDownIntoGap(items, state.sourceIndex, state.insertIndex);
    } else {
      MoveUpIntoGap(items, state.sourceIndex, state.insertIndex);
    }
  }

  lemma MoveDownIntoGap<T>(items: seq<T>, src: nat, gap: nat)
    requires src + 1 < gap <= |items|
    ensures MoveItem(items, src, gap - 1)
            == RemoveAt(items[..gap] + [items[src]] + items[gap..], src)
  {
    var m := items[src];
    var rest := RemoveAt(items, src);
    var inserted := items[..gap] + [m] + items[gap..];
    calc {
      MoveItem(items, src, gap - 1);
      rest[..gap - 1] + [m] + rest[gap - 1..];
      { assert rest[..gap - 1] == items[..src] + items[src + 1..gap];
        assert rest[gap - 1..] == items[gap..]; }
      items[..src] + items[src + 1..gap] + [m] + items[gap..];
      { assert inserted[..src] == items[..src];
        assert inserted[src + 1..] == items[src + 1..gap] + [m] + items[gap..]; }
      RemoveAt(inserted, src);
    }
  }

  lemma MoveUpIntoGap<T>(items: seq<T>, src: nat, gap: nat)
    requires gap < src < |items|
    ensures MoveItem(items, src, gap)
            == RemoveAt(items[..gap] + [items[src]] + items[gap..], src + 1)
  {
    var m := items[src];
    var rest := RemoveAt(items, src);
    var inserted := items[..gap] + [m] + items[gap..];
    calc {
      MoveItem(items, src, gap);
      rest[..gap] + [m] + rest[gap..];
      { assert rest[..gap] == items[..gap];
        assert rest[gap..] == items[gap..src] + items[src + 1..]; }
      items[..gap] + [m] + items[gap..src] + items[src + 1..];
      { assert inserted[..src + 1] == items[..gap] + [m] + items[gap..src];
        assert inserted[src + 2..] == items[src + 1..]; }
      RemoveAt(inserted, src + 1);
    }
  }

  /** A move is a permutation. */
  lemma MoveItemPermutes<T>(items: seq<T>, source: int, target: int)
    requires 0 <= source < |items| && 0 <= target < |items|
    ensures multiset(MoveItem(items, source, target)) == multiset(items)
  {
    var r := MoveItem(items, source, target);
    RemoveAtMultiset(r, target);
    RemoveAtMultiset(items, source);
  }

  lemma RemoveAtMultiset<T>(s: seq<T>, i: nat)
    requires i < |s|
    ensures multiset(s) == multiset(RemoveAt(s, i)) + multiset{s[i]}
  {
    assert s == s[..i] + [s[i]] + s[i + 1..];
  }

  /** `render`'s clamp: `min(pointer, max(0, len - 1))`, and 0 when nothing is shown. */
  function RenderPointer(pointer: int, len: nat): (r: int)
    ensures len == 0 ==> r == 0
    ensures pointer >= 0 && len > 0 ==> 0 <= r < len
    ensures 0 <= pointer < len ==> r == pointer
    ensures len > 0 && pointer >= len ==> r == len - 1
  {
    if len == 0 then 0 else if pointer < len - 1 then pointer else len - 1
  }

  /** JavaScript's `%`, which truncates toward zero. */
  function JsRem(a: int, n: int): (r: int)
    requires n > 0
    ensures a >= 0 ==> r == a % n
    ensures -n < r < n
  {
    if a >= 0 then a % n else -((-a) % n)
  }

  /** `pasteItemIntoChat`: the trimmed content is pasted unless it is blank. */
  function PasteText(item: CopyPasta): (r: Option<string>)
    ensures r.None? <==> AllWhite(item.content)
    ensures r.Some? ==> r.value == Trim(item.content) && IsTrimmed(r.value) && !AllWhite(r.value)
  {
    TrimEmptyIffBlank(item.content);
    var text := Trim(item.content);
    if text == [] then None
    else
      TrimmedNonWhiteStart(text);
      ChatInputRequest(text)
  }

  /** The keys that paste the selection. */
  predicate IsPasteKey(key: string) {
    key == "Enter" || key == " " || key == "Spacebar" || key == "Space"
  }

  class CopyPastaWidget {
    const store: LocalStore
    /** `root !== null`. */
    var isOpen: bool
    var dialogOpen: bool
    /** The channel the open widget is scoped to. */
    var channel: string
    /** The working copy: the in-scope records in store order. */
    var items: seq<CopyPasta>
    var visible: seq<CopyPasta>
    var rowCount: nat
    var search: SearchFilter

    /** An open widget shows the search of its working copy, and the pointer is on a row. */
    predicate Valid()
      reads this, search
    {
      search.items == items
      && visible == Visible(items, search.searchQuery)
      && rowCount == |visible|
      && (rowCount == 0 ==> search.pointer == 0)
      && (rowCount > 0 ==> 0 <= search.pointer < rowCount)
      && (forall x :: x in items ==> ChannelFilter(channel, x))
    }

    /** Everything but the open flag is as it was. */
    twostate predicate ViewUnchanged()
      reads this
    {
      items == old(items) && visible == old(visible) && rowCount == old(rowCount)
      && channel == old(channel) && search == old(search) && dialogOpen == old(dialogOpen)
    }

    constructor(store: LocalStore)
      ensures this.store == store && !isOpen && !dialogOpen
    {
      this.store := store;
      isOpen := false;
      dialogOpen := false;
      channel := [];
      items := [];
      visible := [];
      rowCount := 0;
      search := new SearchFilter([]);
    }

    /** `open`: a no-op while open; otherwise the working copy is the store's
        records in the page's channel, in store order, with nothing searched
        and the first row selected. */
    method Open(href: string, parse: UrlParser)
      modifies this, store
      ensures old(isOpen) ==> isOpen && items == old(items) && channel == old(channel)
                              && store.storage == old(store.storage) && search == old(search)
      ensures !old(isOpen) ==>
                isOpen && fresh(search)
                && channel == ChannelOf(parse, Some(href))
                && items == Scoped(channel, Read(old(store.storage)))
                && store.storage == Healed(old(store.storage))
                && visible == items && search.searchQuery == [] && search.pointer == 0
                && Valid()
      ensures dialogOpen == old(dialogOpen)
    {
      if isOpen {
        return;
      }
      var all := store.GetAll();
      var scope := GetChannel(parse, Some(href));
      BuildWidget(Scoped(scope, all), scope);
      isOpen := true;
    }

    /** `buildWidget`: a fresh search over the initial records, rendered. */
    method BuildWidget(initialItems: seq<CopyPasta>, scope: string)
      requires forall x :: x in initialItems ==> ChannelFilter(scope, x)
      modifies this
      ensures fresh(search) && channel == scope && items == initialItems
      ensures visible == items && search.searchQuery == [] && search.pointer == 0
      ensures isOpen == old(isOpen) && dialogOpen == old(dialogOpen)
      ensures Valid()
    {
      channel := scope;
      items := initialItems;
      search := new SearchFilter(items);
      visible := search.ComputeVisibleItems();
      Render();
    }

    /** `close`: a no-op while closed. */
    method Close()
      modifies this
      ensures !isOpen && ViewUnchanged()
    {
      if !isOpen {
        return;
      }
      isOpen := false;
    }

    /** `toggle`. */
    method Toggle(href: string, parse: UrlParser)
      modifies this, store
      ensures isOpen == !old(isOpen)
      ensures old(isOpen) ==> items == old(items) && store.storage == old(store.storage)
      ensures !old(isOpen) ==> items == Scoped(channel, Read(old(store.storage))) && Valid()
    {
      if isOpen {
        Close();
      } else {
        Open(href, parse);
      }
    }

    /** `render`: the pointer is clamped to the rows shown. */
    method Render()
      modifies this, search
      ensures search.pointer == RenderPointer(old(search.pointer), |visible|)
      ensures rowCount == |visible|
      ensures search.items == old(search.items) && search.searchQuery == old(search.searchQuery)
      ensures items == old(items) && visible == old(visible) && search == old(search)
              && isOpen == old(isOpen) && dialogOpen == old(dialogOpen) && channel == old(channel)
    {
      if |visible| == 0 {
        search.SetPointer(0);
        rowCount := 0;
        return;
      }
      var pointer := search.pointer;
      var clamped := if pointer < |visible| - 1 then pointer else |visible| - 1;
      search.SetPointer(clamped);
      rowCount := |visible|;
    }

    /** The shared tail of every handler that changes the working copy: hand it
        to the search, recompute the rows, reconcile the pointer and render. */
    method Refilter(preferredId: Option<int>)
      modifies this, search
      requires search.pointer >= 0 && forall x :: x in items ==> ChannelFilter(channel, x)
      ensures search.searchQuery == old(search.searchQuery) && search.items == items
      ensures visible == Visible(items, search.searchQuery)
      ensures search.pointer
              == RenderPointer(Reconcile(visible, old(search.pointer), preferredId), |visible|)
      ensures items == old(items) && search == old(search)
              && isOpen == old(isOpen) && dialogOpen == old(dialogOpen) && channel == old(channel)
      ensures Valid()
    {
      search.SetItems(items);
      visible := search.ComputeVisibleItems();
      var _ := search.RecomputeVisible(visible, preferredId);
      Render();
    }

    /** `selectNext`: one row down, wrapping; nothing without rows. */
    method SelectNext()
      modifies search
      ensures rowCount == 0 ==> search.pointer == old(search.pointer)
      ensures rowCount > 0 ==> search.pointer == JsRem(old(search.pointer) + 1, rowCount)
      ensures search.items == old(search.items) && search.searchQuery == old(search.searchQuery)
      ensures old(Valid()) ==> Valid()
    {
      if rowCount == 0 {
        return;
      }
      search.SetPointer(JsRem(search.pointer + 1, rowCount));
    }

    /** `selectPrev`: one row up, wrapping; nothing without rows. */
    method SelectPrev()
      modifies search
      ensures rowCount == 0 ==> search.pointer == old(search.pointer)
      ensures rowCount > 0 ==> search.pointer == JsRem(old(search.pointer) - 1 + rowCount, rowCount)
      ensures search.items == old(search.items) && search.searchQuery == old(search.searchQuery)
      ensures old(Valid()) ==> Valid()
    {
      if rowCount == 0 {
        return;
      }
      search.SetPointer(JsRem(search.pointer - 1 + rowCount, rowCount));
    }

    /** `getSelected`: the row under the pointer, none without rows. */
    function GetSelected(): (r: Option<CopyPasta>)
      reads this, search
      ensures rowCount == 0 ==> r.None?
      ensures Valid() && rowCount > 0 ==> r == Some(visible[search.pointer])
    {
      if rowCount > 0 && 0 <= search.pointer < |visible| then Some(visible[search.pointer]) else None
    }

    /** `onSelect`: clicking a row selects it, except during a drag. */
    method OnSelect(index: nat, dragging: bool)
      modifies search
      ensures dragging ==> search.pointer == old(search.pointer)
      ensures !dragging ==> search.pointer == index
      ensures search.items == old(search.items) && search.searchQuery == old(search.searchQuery)
    {
      if dragging {
        return;
      }
      if search.pointer == index {
        return;
      }
      search.SetPointer(index);
    }

    /** `onReorder`: the dragged record moves to the target row, the pointer
        follows its id and the new order is written back to the store. The
        drag handle only works while the search is blank, so the row indices
        are indices of the working copy. */
    method OnReorder(sourceIndex: int, targetIndex: int)
      requires Valid() && 0 <= sourceIndex < |items| && 0 <= targetIndex < |items|
      modifies this, search, store
      ensures items == MoveItem(old(items), sourceIndex, targetIndex)
      ensures store.storage
              == EncodeAll(Normalize(EncodeAll(QueueMerge(Read(old(store.storage)), items, channel))).data)
      ensures AllWhite(search.searchQuery) && DistinctIds(old(items)) && items[targetIndex].id != 0
              ==> search.pointer == targetIndex
      ensures Valid()
    {
      MoveInWorkingCopy(sourceIndex, targetIndex);
      PersistChannelOrder();
    }

    method MoveInWorkingCopy(sourceIndex: int, targetIndex: int)
      requires Valid() && 0 <= sourceIndex < |items| && 0 <= targetIndex < |items|
      modifies this, search
      ensures items == MoveItem(old(items), sourceIndex, targetIndex)
      ensures AllWhite(search.searchQuery) && DistinctIds(old(items)) && items[targetIndex].id != 0
              ==> search.pointer == targetIndex
      ensures channel == old(channel)
      ensures Valid()
    {
      var moved := items[sourceIndex];
      MoveKeepsScope(items, sourceIndex, targetIndex, channel);
      items := MoveItem(items, sourceIndex, targetIndex);
      Refilter(Some(moved.id));
      if AllWhite(search.searchQuery) && DistinctIds(old(items)) && moved.id != 0 {
        VisibleBlank(items, search.searchQuery);
        MoveKeepsDistinct(old(items), sourceIndex, targetIndex);
        DistinctFind(items, targetIndex);
      }
    }

    /** `persistChannelOrder`: the working copy's order is written into the
        in-scope slots of the full list and the list is saved. */
    method PersistChannelOrder()
      modifies store
      ensures store.storage
              == EncodeAll(Normalize(EncodeAll(QueueMerge(Read(old(store.storage)), items, channel))).data)
    {
      var allItems := store.GetAll();
      var nextAll := ReplaceInScope(allItems, items, channel);
      store.Save(nextAll);
    }

    /** `refreshFromStore`: the working copy is reread from the store. */
    method RefreshFromStore()
      requires search.pointer >= 0
      modifies this, search, store
      ensures items == Scoped(channel, Read(old(store.storage)))
      ensures store.storage == Healed(old(store.storage))
      ensures search.pointer == RenderPointer(Reconcile(visible, old(search.pointer), None), |visible|)
      ensures search.searchQuery == old(search.searchQuery) && search == old(search) && channel == old(channel)
      ensures Valid()
    {
      ghost var before := store.storage;
      var all := store.GetAll();
      ghost var after := store.storage;
      assert all == Read(before) && after == Healed(before);
      items := Scoped(channel, all);
      Refilter(None);
      assert store.storage == after;
    }

    /** The hidden file input's `change` handler after the file is read.
        `payload` is the parsed array, or the `items` array of a parsed
        object; None when neither is an array, which is reported and changes
        nothing. Otherwise the records are merged into the store and the
        working copy is reread. */
    method OnImport(payload: Option<seq<RawRecord>>) returns (imported: bool)
      requires Valid()
      modifies this, search, store
      ensures imported <==> payload.Some?
      ensures !imported ==> store.storage == old(store.storage) && items == old(items)
      ensures imported ==>
                var merged := EncodeAll(MergeInto(Read(old(store.storage)), Normalize(payload.value).data));
                store.storage == Healed(merged) && items == Scoped(channel, Read(merged))
      ensures Valid()
    {
      if payload.None? {
        return false;
      }
      store.Merge(payload.value);
      RefreshFromStore();
      return true;
    }

    /** The add dialog's `onSaved`: an in-scope record goes to the top and is selected. */
    method OnAddSaved(item: CopyPasta)
      requires Valid()
      modifies this, search
      ensures !ChannelFilter(channel, item) ==> items == old(items) && search.pointer == old(search.pointer)
      ensures ChannelFilter(channel, item) ==>
                items == [item] + old(items)
                && search.pointer == RenderPointer(Reconcile(visible, old(search.pointer), Some(item.id)), |visible|)
      ensures ChannelFilter(channel, item) && item.id != 0 && FindIndexById(visible, item.id) != -1
              ==> visible[search.pointer].id == item.id
      ensures Valid()
    {
      if !ChannelFilter(channel, item) {
        return;
      }
      items := [item] + items;
      Refilter(Some(item.id));
    }

    /** The edit dialog's `onSaved`: a record still in scope replaces the one
        with its id in place; one that left the scope triggers a reread. */
    method OnEditSaved(updated: CopyPasta)
      requires Valid()
      modifies this, search, store
      ensures !ChannelFilter(channel, updated) ==>
                items == Scoped(channel, Read(old(store.storage)))
                && store.storage == Healed(old(store.storage))
                && search.pointer == RenderPointer(Reconcile(visible, old(search.pointer), None), |visible|)
      ensures ChannelFilter(channel, updated) ==>
                var idx := FindIndexById(old(items), updated.id);
                items == (if idx > -1 then old(items)[idx := updated] else old(items))
                && store.storage == old(store.storage)
                && search.pointer == RenderPointer(Reconcile(visible, old(search.pointer), Some(updated.id)), |visible|)
      ensures ChannelFilter(channel, updated) && updated.id != 0 && FindIndexById(visible, updated.id) != -1
              ==> visible[search.pointer].id == updated.id
      ensures channel == old(channel)
      ensures Valid()
    {
      if !ChannelFilter(channel, updated) {
        RefreshFromStore();
        return;
      }
      ReplaceInWorkingCopy(updated);
    }

    method ReplaceInWorkingCopy(updated: CopyPasta)
      requires Valid() && ChannelFilter(channel, updated)
      modifies this, search
      ensures var idx := FindIndexById(old(items), updated.id);
              items == (if idx > -1 then old(items)[idx := updated] else old(items))
      ensures search.pointer == RenderPointer(Reconcile(visible, old(search.pointer), Some(updated.id)), |visible|)
      ensures channel == old(channel)
      ensures Valid()
    {
      var idx := FindIndexById(items, updated.id);
      if idx > -1 {
        UpdateKeepsScope(items, idx, updated, channel);
        items := items[idx := updated];
      }
      Refilter(Some(updated.id));
    }

    /** `onDelete`: the record leaves the store and the working copy. */
    method OnDelete(item: CopyPasta)
      requires Valid()
      modifies this, search, store
      ensures var stored := Read(old(store.storage));
              var i := FindIndexById(stored, item.id);
              store.storage == if i == -1 then Healed(old(store.storage)) else EncodeAll(RemoveAt(stored, i))
      ensures var idx := FindIndexById(old(items), item.id);
              items == if idx > -1 then RemoveAt(old(items), idx) else old(items)
      ensures Valid()
    {
      store.Delete(item.id);
      RemoveFromWorkingCopy(item.id);
    }

    method RemoveFromWorkingCopy(id: int)
      requires Valid()
      modifies this, search
      ensures var idx := FindIndexById(old(items), id);
              items == if idx > -1 then RemoveAt(old(items), idx) else old(items)
      ensures Valid()
    {
      var idx := FindIndexById(items, id);
      if idx > -1 {
        RemoveKeepsScope(items, idx, channel);
        items := RemoveAt(items, idx);
        Refilter(None);
      } else {
        Render();
      }
    }

    /** The search box's `input` handler: a new query starts at the first row. */
    method OnSearchInput(value: string)
      requires Valid()
      modifies this, search
      ensures search.searchQuery == value && items == old(items)
      ensures visible == Visible(items, value)
      ensures search.pointer == 0
      ensures Valid()
    {
      search.SetSearchQuery(value);
      search.SetPointer(0);
      Refilter(None);
    }

    /** `onPaste`: a row's paste button pastes it and closes, except during a drag. */
    method OnPaste(item: CopyPasta, dragging: bool) returns (pasted: Option<string>)
      modifies this
      ensures dragging ==> pasted.None? && isOpen == old(isOpen)
      ensures !dragging ==> pasted == PasteText(item) && !isOpen
      ensures ViewUnchanged()
    {
      if dragging {
        return None;
      }
      pasted := PasteText(item);
      Close();
    }

    /** `pasteSelectedAndClose`: nothing without a selection; otherwise the
        selection is pasted (unless blank) and the widget closes. */
    method PasteSelectedAndClose() returns (pasted: Option<string>)
      modifies this
      ensures var selected := if old(isOpen) then old(GetSelected()) else None;
              (selected.None? ==> pasted.None? && isOpen == old(isOpen))
              && (selected.Some? ==> pasted == PasteText(selected.value) && !isOpen)
      ensures ViewUnchanged()
    {
      var selected := if isOpen then GetSelected() else None;
      if selected.None? {
        return None;
      }
      pasted := PasteText(selected.value);
      Close();
    }

    /** The global `keydown` handler; `handled` is whether the key was consumed. */
    method OnKeyDown(key: string) returns (handled: bool, pasted: Option<string>)
      requires Valid()
      modifies this, search
      ensures (old(dialogOpen) || !old(isOpen)) ==>
                !handled && pasted.None? && isOpen == old(isOpen) && search.pointer == old(search.pointer)
      ensures !old(dialogOpen) && old(isOpen) ==>
                (handled <==> key == "Escape" || key == "ArrowDown" || key == "ArrowUp" || IsPasteKey(key))
      ensures !old(dialogOpen) && old(isOpen) && key == "Escape" ==> !isOpen && pasted.None?
      ensures !old(dialogOpen) && old(isOpen) && (key == "ArrowDown" || key == "ArrowUp") ==> isOpen && pasted.None?
      ensures !old(dialogOpen) && old(isOpen) && IsPasteKey(key) ==>
                (old(GetSelected()).Some? ==> pasted == PasteText(old(GetSelected()).value) && !isOpen)
                && (old(GetSelected()).None? ==> pasted.None? && isOpen)
      ensures items == old(items) && dialogOpen == old(dialogOpen)
      ensures Valid()
    {
      if dialogOpen || !isOpen {
        return false, None;
      }
      if key == "Escape" {
        Close();
        return true, None;
      }
      if key == "ArrowDown" {
        SelectNext();
        return true, None;
      }
      if key == "ArrowUp" {
        SelectPrev();
        return true, None;
      }
      if IsPasteKey(key) {
        pasted := PasteSelectedAndClose();
        return true, pasted;
      }
      return false, None;
    }

    /** The global `pointerdown` handler: a press outside the widget closes it,
        except while an entry dialog is open. */
    method OnPointerDown(insideWidget: bool)
      modifies this
      ensures old(dialogOpen) || insideWidget ==> isOpen == old(isOpen)
      ensures !old(dialogOpen) && !insideWidget ==> !isOpen
      ensures ViewUnchanged()
    {
      if dialogOpen {
        return;
      }
      if insideWidget {
        return;
      }
      Close();
    }

    /** `openEntryDialog`: at most one entry dialog at a time. */
    method OpenEntryDialog() returns (entered: bool)
      modifies this
      ensures entered <==> !old(dialogOpen)
      ensures dialogOpen
      ensures items == old(items) && isOpen == old(isOpen)
    {
      if dialogOpen {
        return false;
      }
      dialogOpen := true;
      return true;
    }

    /** The dialog's `onClose`. */
    method OnDialogClose()
      modifies this
      ensures !dialogOpen
      ensures items == old(items) && isOpen == old(isOpen)
    {
      dialogOpen := false;
    }
  }

  /** The `map` of `persistChannelOrder`, consuming the queue from the front. */
  method ReplaceInScope(all: seq<CopyPasta>, items: seq<CopyPasta>, channel: string) returns (nextAll: seq<CopyPasta>)
    ensures nextAll == QueueMerge(all, items, channel)
  {
    var replacementQueue := items;
    nextAll := [];
    var i := 0;
    while i < |all|
      invariant 0 <= i <= |all|
      invariant nextAll + QueueMerge(all[i..], replacementQueue, channel) == QueueMerge(all, items, channel)
    {
      var entry := all[i];
      QueueMergeFront(all, i, replacementQueue, channel);
      var slot := entry;
      if ChannelFilter(channel, entry) && replacementQueue != [] {
        slot := replacementQueue[0];
        replacementQueue := replacementQueue[1..];
      }
      AppendAssoc(nextAll, [slot], QueueMerge(all[i + 1..], replacementQueue, channel));
      nextAll := nextAll + [slot];
      i := i + 1;
    }
  }

  /** One slot of the merge taken from the front of the rest of the list. */
  lemma QueueMergeFront(all: seq<CopyPasta>, i: int, queue: seq<CopyPasta>, channel: string)
    requires 0 <= i < |all|
    ensures QueueMerge(all[i..], queue, channel)
            == if !ChannelFilter(channel, all[i]) || queue == []
               then [all[i]] + QueueMerge(all[i + 1..], queue, channel)
               else [queue[0]] + QueueMerge(all[i + 1..], queue[1..], channel)
  {
    assert all[i..][1..] == all[i + 1..];
  }

  lemma MoveKeepsScope(items: seq<CopyPasta>, source: int, target: int, channel: string)
    requires 0 <= source < |items| && 0 <= target < |items|
    requires forall x :: x in items ==> ChannelFilter(channel, x)
    ensures forall x :: x in MoveItem(items, source, target) ==> ChannelFilter(channel, x)
  {
    MoveItemPermutes(items, source, target);
    forall x | x in MoveItem(items, source, target)
      ensures ChannelFilter(channel, x)
    {
      assert x in multiset(MoveItem(items, source, target));
    }
  }

  lemma UpdateKeepsScope(items: seq<CopyPasta>, idx: int, updated: CopyPasta, channel: string)
    requires 0 <= idx < |items| && ChannelFilter(channel, updated)
    requires forall x :: x in items ==> ChannelFilter(channel, x)
    ensures forall x :: x in items[idx := updated] ==> ChannelFilter(channel, x)
  {
    forall x | x in items[idx := updated]
      ensures ChannelFilter(channel, x)
    {
      var k :| 0 <= k < |items| && items[idx := updated][k] == x;
      if k != idx {
        assert x == items[k];
      }
    }
  }

  lemma RemoveKeepsScope(items: seq<CopyPasta>, idx: int, channel: string)
    requires 0 <= idx < |items|
    requires forall x :: x in items ==> ChannelFilter(channel, x)
    ensures forall x :: x in RemoveAt(items, idx) ==> ChannelFilter(channel, x)
  {
    forall x | x in RemoveAt(items, idx)
      ensures ChannelFilter(channel, x)
    {
      var k :| 0 <= k < |items| - 1 && RemoveAt(items, idx)[k] == x;
      assert x == items[if k < idx then k else k + 1];
    }
  }

  /** A move keeps ids distinct. */
  lemma MoveKeepsDistinct(items: seq<CopyPasta>, source: int, target: int)
    requires DistinctIds(items) && 0 <= source < |items| && 0 <= target < |items|
    ensures DistinctIds(MoveItem(items, source, target))
  {
    var rest := RemoveAt(items, source);
    RemoveAtDistinct(items, source);
    InsertDistinct(rest, target, items[source]);
  }

  lemma RemoveAtDistinct(items: seq<CopyPasta>, i: nat)
    requires DistinctIds(items) && i < |items|
    ensures DistinctIds(RemoveAt(items, i))
    ensures forall k :: 0 <= k < |items| - 1 ==> RemoveAt(items, i)[k].id != items[i].id
  {
    var r := RemoveAt(items, i);
    forall a, b | 0 <= a < b < |r|
      ensures r[a].id != r[b].id
    {
      var a' := if a < i then a else a + 1;
      var b' := if b < i then b else b + 1;
      assert r[a] == items[a'] && r[b] == items[b'] && a' < b';
    }
    forall k | 0 <= k < |r|
      ensures r[k].id != items[i].id
    {
      var k' := if k < i then k else k + 1;
      assert r[k] == items[k'] && k' != i;
    }
  }

  lemma InsertDistinct(rest: seq<CopyPasta>, t: int, x: CopyPasta)
    requires DistinctIds(rest) && 0 <= t <= |rest|
    requires forall k :: 0 <= k < |rest| ==> rest[k].id != x.id
    ensures DistinctIds(rest[..t] + [x] + rest[t..])
  {
    var r := rest[..t] + [x] + rest[t..];
    forall a, b | 0 <= a < b < |r|
      ensures r[a].id != r[b].id
    {
      if a < t {
        assert r[a] == rest[a];
      } else if a > t {
        assert r[a] == rest[a - 1];
      }
      if b < t {
        assert r[b] == rest[b];
      } else if b > t {
        assert r[b] == rest[b - 1];
      }
    }
  }

  /** With distinct ids the first index holding an id is the index of that record. */
  lemma DistinctFind(items: seq<CopyPasta>, k: int)
    requires DistinctIds(items) && 0 <= k < |items|
    ensures FindIndexById(items, items[k].id) == k
  {
  }
}
