# Spamerino, modelled in Dafny

Spamerino is a browser extension for Twitch chat. It keeps a library of chat snippets ("copypastas"). Each record is `{id, content, tags, channels}`.

The extension has three surfaces:

- A page widget lists the snippets scoped to the current channel. It can search, select, paste, reorder, add, edit and delete them.
- A popup filters and edits the library, and it imports and exports the library as JSON.
- A content script adds a duplicate-message bypass to the chat input and keeps an emote cache for previews.

This project models, in Dafny, the logic of the extension that sits between storage and the DOM:

- the snippet store (`LocalStore`), which turns the raw stored array into canonical records and adds, deletes, saves and merges them;
- the widget's search filter, its relation to the selection pointer, the drag-and-drop state machine and the widget's own handlers;
- the channel-scoping, channel-name, title/description and popup-query helpers;
- the tag and channel chip editors, the add dialog, the popup edit payload and the popup import loop;
- the duplicate-message bypass, the emote cache and the emote tokeniser;
- settings validation and the channel read from a URL path.

## How the model is laid out

There is one Dafny module per core source file:

- `Storage` is LocalStore;
- `Search` is SearchFilter;
- `DragDrop` is DragDropManager;
- `Widget` is CopyPastaWidget;
- `ContentCopyPasta` is the page's channel helpers;
- `SharedChannels` and `SharedCopyPasta` are the shared helpers;
- `PopupFilter`, `PopupChannel`, `ImportExport` and `EditDialog` are the popup;
- `TagEditor`, `ChannelEditor` and `EntryDialog` are the page's dialog components;
- `ContentScript` is the content script's bypass;
- `Emotes` and `EmoteParser` are the emotes;
- `AppSettings` is the settings;
- `TwitchPlatform` is the platform adapter.

Shared modules support them:

- `Strings` holds `trim`, ASCII `toLowerCase`, `includes`, the split variants, and `Set`-style de-duplication.
- `Values` holds JSON-ish values, their truthiness and `String(v)`.
- `Types` holds the record, its stored form and the id arithmetic.
- `Wrappers` holds `Option` and `Result`.

Code that changes state in place is modelled as classes whose methods carry `modifies` clauses and state the whole new state: LocalStore, SearchFilter, DragDropManager, the widget, the chip inputs, the add dialog, the bypass and the emote service. Each loop of the source is a `while` loop proved against a specification function, for example `computeVisibleItems`, `merge`, `getChannel` and `commitPendingTag`. The pure helpers are functions with lemmas.

### Inputs from outside the model

These come in as parameters:

- The browser's `localStorage` is the store's `storage` field, holding an array of raw records.
- `new URL(u).pathname` is a `UrlParser` function, where None means the constructor throws.
- `Date.now()` is a `now` parameter.
- Row midpoints are a `Geometry` function.
- Provider responses are `Option<seq<Emote>>`, where None means a rejected promise.

## Model

| member | source | states |
|---|---|---|
| Storage.CleanChannel | src/core/LocalStore.ts:14-24 | A result exists exactly when the value is a string whose trimmed, lowercased form matches `^[a-z0-9_]+$`, and the result is that form. |
| Storage.CleanAll | src/core/LocalStore.ts:133-135 | Every kept channel is a valid channel name, and nothing is added. |
| Storage.CleanAllAppend | src/core/LocalStore.ts:133-135 | `map` then `filter` keeps order: cleaning a concatenation cleans each part. |
| Storage.ChannelCandidates | src/core/LocalStore.ts:28-39 | The names added to the set, in insertion order: the cleaned `channels` entries, then the cleaned legacy `channel`. |
| Storage.CoerceChannels | src/core/LocalStore.ts:26-41 | The channels are distinct and valid. A channel is present exactly when it is a cleaned `channels` entry or the cleaned legacy `channel`. They come in the order of their first occurrence among the candidates. |
| Storage.CoerceChannelsLegacyLast | src/core/LocalStore.ts:26-41 | The legacy `channel` comes after the de-duplicated list, and only when the list does not already hold it. |
| Storage.FirstNonBlank | src/core/LocalStore.ts:44-51 | The value returned is a non-blank string of the list, and no value before it is one. None exactly when there is no such value. |
| Storage.CoerceContent | src/core/LocalStore.ts:43-54 | The content is trimmed. It is empty exactly when none of content, description and title is a non-blank string. |
| Storage.CoerceContentFirstNonBlank | src/core/LocalStore.ts:43-54 | Content is the first non-blank of content, description and title, trimmed, or '' when there is none. Description beats title. |
| Storage.TagText | src/core/LocalStore.ts:59 | `String(tag).trim()` is trimmed. |
| Storage.TrimTags | src/core/LocalStore.ts:57-59 | Every kept tag is non-empty and trimmed, and none is added. |
| Storage.TrimTagsAppend | src/core/LocalStore.ts:59 | `map` then `filter` keeps order: trimming a concatenation trims each part. |
| Storage.TrimTagsOne | src/core/LocalStore.ts:59 | One tag survives, trimmed, exactly when its text is not blank. |
| Storage.TrimTagsNoDrop | src/core/LocalStore.ts:59-60 | When no tag is dropped, tag i of the result is the trimmed tag i. |
| Storage.CoerceTagsAsWritten | src/core/LocalStore.ts:56-63 | The `coerceTags` the store runs. An array gives exactly `TrimTags` of its elements, so the tags are non-empty and trimmed. A non-array gives no tags, flagged exactly when the value is truthy. A dropped tag flags the record. |
| Storage.CoerceTagsAsWrittenCountsOnlyDrops | src/core/LocalStore.ts:60 | As written, the record counts as changed exactly when a tag was dropped. The per-tag comparison never fires. |
| Storage.CoerceTagsAsWrittenMissesTrim | src/core/LocalStore.ts:56-63 | As written, the stored tag `" a "` reads as `"a"` but is not flagged for write-back. |
| Storage.CoerceTags | src/core/LocalStore.ts:56-63 | `coerceTags` with the intended comparison. An array gives exactly `TrimTags` of its elements, the same tags as `CoerceTagsAsWritten`, non-empty and trimmed. A non-array gives no tags, flagged exactly when truthy. A dropped tag flags the record. |
| Storage.CoerceItemIntended | src/core/LocalStore.ts:65-77 | `coerceItem` with the intended tag comparison. Its id, content and channels are those of `CoerceItem`, and its tags are `CoerceTags`' value. The record is flagged exactly under `CoerceItem`'s five conditions, with `CoerceTags`' flag in place of the as-written one. |
| Storage.CoerceTagsFlagsRewrite | src/core/LocalStore.ts:56-63 | With the intended comparison, a tag array that is not flagged is exactly the stored form of the tags read. |
| Storage.CoerceItem | src/core/LocalStore.ts:65-77 | A numeric id is kept and any other id becomes the index plus one. The content comes from `coerceContent`, the tags from `coerceTags` as written and the channels from `coerceChannels`. The record is flagged exactly when one of these holds: the id is not numeric; the content or the tags are flagged; the legacy `channel` is truthy; the `channels` array lost entries; `title` or `description` is truthy. |
| Storage.Normalize | src/core/LocalStore.ts:79-87 | Normalisation is one-to-one: one record per stored entry, none dropped. |
| Storage.MapCoerce | src/core/LocalStore.ts:81-86 | The `forEach` of `normalize` gives one output per input. |
| Storage.MapCoerceItems | src/core/LocalStore.ts:81-86 | Output i is the coercion of entry i at index i. The flag is raised exactly when some coercion raises it. |
| Storage.NormalizeItems | src/core/LocalStore.ts:65-87 | Record i is `coerceItem(raw[i], i)`, with the tag check as written. The result is flagged exactly when some record was. |
| Storage.NormalizeIds | src/core/LocalStore.ts:66 | A numeric id is kept, and any other id becomes the position plus one. |
| Storage.CoerceItemCanonical | src/core/LocalStore.ts:65-77 | Every coerced record is canonical: trimmed content, non-empty trimmed tags, and distinct valid channels. |
| Storage.TagTextOfTrimmed | src/core/LocalStore.ts:59 | A trimmed string is its own tag text. |
| Storage.TrimTagsOfCanonical | src/core/LocalStore.ts:57-59 | Canonical tags read back unchanged. |
| Storage.CleanChannelOfName | src/core/LocalStore.ts:14-24 | A channel name is its own cleaned form. |
| Storage.CleanAllOfNames | src/core/LocalStore.ts:133-135 | Valid channel names read back unchanged. |
| Storage.CoerceEncodedCanonical | src/core/LocalStore.ts:65-77 | A stored canonical record reads back as itself and is not flagged. |
| Storage.ContentOfCanonical | src/core/LocalStore.ts:43-54 | Trimmed content reads back as itself and is not flagged. |
| Storage.TagsOfCanonical | src/core/LocalStore.ts:56-63 | Canonical tags read back as themselves and are not flagged, by the check as written and by the intended one. |
| Storage.ChannelsOfCanonical | src/core/LocalStore.ts:26-41 | Distinct valid channels read back as themselves. |
| Storage.NormalizeCanonical | src/core/LocalStore.ts:79-87 | Normalising canonical data returns the same data with `mutated = false`. |
| Storage.CanonicalIgnoresId | src/core/LocalStore.ts:167-174 | Giving a canonical record a new id keeps it canonical. |
| Storage.NormalizeOutputCanonical | src/core/LocalStore.ts:79-87 | Every normalised record is canonical. |
| Storage.NormalizeIdempotent | src/core/LocalStore.ts:79-87 | Normalisation is idempotent: its output, stored, normalises to itself and is not flagged. |
| Storage.ReadHealed | src/core/LocalStore.ts:94-123 | The write-back of `getAll` happens only when something changed. It changes nothing a later read sees, and a second read writes nothing. |
| Storage.GetAllKeepsUntrimmedTag | src/core/LocalStore.ts:56-123 | A stored record whose only flaw is the tag `" a "` reads as tag `"a"`, yet `getAll` leaves storage as it was. The intended comparison would flag it. |
| Storage.SaveThenRead | src/core/LocalStore.ts:157-161 | After `save`, `getAll` returns the normalised saved list and writes nothing back. |
| Storage.MergeInto | src/core/LocalStore.ts:162-177 | The merged list is as long as the existing and incoming lists together. |
| Storage.MergeIntoShape | src/core/LocalStore.ts:162-177 | Existing records stay unchanged at the front, and incoming records follow in order. Each incoming record is re-keyed to `nextId` exactly when its id is already in the list before it. |
| Storage.MergeIntoDistinct | src/core/LocalStore.ts:162-177 | If the existing ids are distinct, all ids are distinct after the merge. |
| Storage.MergeIntoCanonical | src/core/LocalStore.ts:162-177 | Merging canonical records gives canonical records. |
| Storage.AppendRekeyed | src/core/LocalStore.ts:166-175 | The merge loop builds exactly `MergeInto` of the list read and the incoming records. |
| Storage.Added | src/core/LocalStore.ts:131-146 | The record `add` stores from the draft: the id is `nextId`, so it is not yet in the list; the content is the draft's content trimmed; the tags are the draft's tags through `TrimTags`, so they are non-empty and trimmed; the channels are the draft's channels through `CleanAll`, so they are valid names, and `CleanAllAppend` keeps their order and multiplicity. |
| Storage.AddedKeepsDuplicateChannels | src/core/LocalStore.ts:133-135 | `add` does not de-duplicate channels: a valid name given twice is stored twice. |
| Storage.LocalStore.constructor | src/core/LocalStore.ts:89-92 | The store starts from the array read from storage. |
| Storage.Read | src/core/LocalStore.ts:109-120 | The list `getAll` returns: the normalised stored array, one record per stored entry. |
| Storage.Healed | src/core/LocalStore.ts:112-118 | The stored array after `getAll`: either unchanged or the canonical encoding of the list read. |
| Storage.LocalStore.Hydrate | src/core/LocalStore.ts:94-108 | Returns the normalised list, and rewrites storage in canonical form only when normalising flagged a change. The tag check is the one the code has, so an untrimmed tag alone causes no rewrite. |
| Storage.LocalStore.GetAll | src/core/LocalStore.ts:109-123 | The self-healing read: the normalised list, written back only when normalising flagged a change, with the tag check as written. |
| Storage.LocalStore.Add | src/core/LocalStore.ts:128-146 | The draft's id is ignored. The cleaned record gets `nextId`, is appended last and is returned. |
| Storage.LocalStore.Delete | src/core/LocalStore.ts:147-156 | Only the first record with that id is removed and the rest keep their order. An absent id leaves storage as `getAll` leaves it. |
| Storage.LocalStore.Save | src/core/LocalStore.ts:157-161 | Storage holds the normalised list. |
| Storage.LocalStore.Merge | src/core/LocalStore.ts:162-177 | Storage holds the list read, then the normalised incoming records, re-keyed as `MergeInto` says. |
| Types.StrValues | src/core/LocalStore.ts:157-161 | A string list is stored as the array of those strings. |
| Types.EncodeAll | src/core/LocalStore.ts:157-161 | Each record is stored as its four fields, in order. |
| Types.MaxId | src/core/LocalStore.ts:128-130 | `reduce(max, 0)` bounds every id, is at least 0 and is 0 or some id. |
| Types.NextId | src/core/LocalStore.ts:128-130 | The next id is at least 1 and above every id; it is 1 or one more than some id. |
| Types.FindIndexById | src/core/LocalStore.ts:149-151 | The first index holding the id, or -1 exactly when no record has it. |
| Types.RemoveAt | src/core/LocalStore.ts:153 | `splice(i, 1)` removes position i and keeps the rest in order. |
| Types.AppendFreshDistinct | src/popup/app/ImportExportManager.ts:76-77 | Appending a record whose id is not taken keeps ids distinct. |
| Types.AppendNextIdDistinct | src/core/LocalStore.ts:131-146 | Appending a record with `nextId` keeps ids distinct. |
| Values.Truthy | src/core/LocalStore.ts:53 | `Boolean(v)`: `undefined` and `null` are falsy; arrays and objects are truthy. |
| Values.ToStr | src/core/LocalStore.ts:59 | `String(v)` of a string is the string itself; numbers, booleans, `undefined`, `null` and objects never give the empty string. |
| Values.NatToString | src/core/LocalStore.ts:59 | The decimal form of a number is never empty. |
| Search.TagMatches | src/content/ui/utilities/SearchFilter.ts:37-48 | Holds exactly the records with a tag containing the query, and no more of them than there are records. |
| Search.TagMatchesAppend | src/content/ui/utilities/SearchFilter.ts:37-48 | The tag group is stable: the group of a concatenation is the groups of the parts, in order. |
| Search.TagMatchesOne | src/content/ui/utilities/SearchFilter.ts:37-48 | One record is in the tag group exactly when a tag contains the query. |
| Search.ContentMatches | src/content/ui/utilities/SearchFilter.ts:37-48 | Holds exactly the records with no tag hit whose lowercased content contains the query, and no more of them than there are records. |
| Search.ContentMatchesAppend | src/content/ui/utilities/SearchFilter.ts:37-48 | The content group is stable: the group of a concatenation is the groups of the parts, in order. |
| Search.ContentMatchesOne | src/content/ui/utilities/SearchFilter.ts:37-48 | One record is in the content group exactly when its content contains the query and no tag does. |
| Search.Misses | src/content/ui/utilities/SearchFilter.ts:37-48 | Holds exactly the records matching neither way. |
| Search.Visible | src/content/ui/utilities/SearchFilter.ts:30-51 | Every shown record is one of the records. |
| Search.VisibleBlank | src/content/ui/utilities/SearchFilter.ts:30-32 | A query that is blank after trimming shows every record in its original order. |
| Search.VisibleMembers | src/content/ui/utilities/SearchFilter.ts:30-51 | A record is shown exactly when the trimmed lowercased query is empty, or a tag contains it, or the content does. The whole query is one substring. |
| Search.VisibleGroups | src/content/ui/utilities/SearchFilter.ts:33-50 | All tag hits come first; the rest are content hits without a tag hit. |
| Search.GroupsPartition | src/content/ui/utilities/SearchFilter.ts:37-48 | The tag, content and miss groups together hold each record exactly as often as the list does. |
| Search.VisibleNoDuplicates | src/content/ui/utilities/SearchFilter.ts:33-50 | No record is shown more often than it occurs. |
| Search.Reconcile | src/content/ui/utilities/SearchFilter.ts:53-63 | A present, non-zero preferred id puts the pointer on its first row. Otherwise a pointer on a row is kept, a pointer past the end goes to the last row, and the pointer is 0 when nothing is visible. |
| Search.SearchFilter.constructor | src/content/ui/utilities/SearchFilter.ts:3-7 | The filter starts with an empty query, pointer 0 and the given records. |
| Search.SearchFilter.SetSearchQuery | src/content/ui/utilities/SearchFilter.ts:9-12 | A new query resets the pointer to 0. |
| Search.SearchFilter.SetItems | src/content/ui/utilities/SearchFilter.ts:18-20 | Replaces the records and leaves the query and pointer alone. |
| Search.SearchFilter.SetPointer | src/content/ui/utilities/SearchFilter.ts:26-28 | Sets the pointer and leaves the rest alone. |
| Search.SearchFilter.ComputeVisibleItems | src/content/ui/utilities/SearchFilter.ts:30-51 | The one-pass loop yields exactly the two-group `Visible` result and changes no state. |
| Search.SearchFilter.RecomputeVisible | src/content/ui/utilities/SearchFilter.ts:53-63 | The pointer becomes `Reconcile` of the visible rows, and the query and records are unchanged. |
| DragDrop.InsertIndex | src/content/ui/utilities/DragDropManager.ts:125-132 | The result lies in [0, rows]. Every row before it has its midpoint at or above the pointer, and the row at it, if any, is below the pointer. |
| DragDrop.InsertIndexFrom | src/content/ui/utilities/DragDropManager.ts:127-131 | The scan from row i keeps the "first midpoint below the pointer" characterisation. |
| DragDrop.ApplyReorder | src/content/ui/utilities/DragDropManager.ts:112-123 | The target is the gap minus one when the gap is below the source, else the gap. A reorder fires exactly when the gap is neither the source position nor the one after it, and then the target differs from the source. |
| DragDrop.ApplyReorderInRange | src/content/ui/utilities/DragDropManager.ts:112-123 | For a source row in [0,n) and a gap in [0,n], the target row lies in [0,n). |
| DragDrop.DragDropManager.constructor | src/content/ui/utilities/DragDropManager.ts:17-19 | The manager starts with no gesture, indicator index -1 and no after-last marker. |
| DragDrop.DragDropManager.StartDrag | src/content/ui/utilities/DragDropManager.ts:26-54 | A gesture starts exactly for button 0 with no active gesture and at least two rows, with its gap at the source row. Otherwise nothing changes, so at most one gesture is active. |
| DragDrop.DragDropManager.OnDragMove | src/content/ui/utilities/DragDropManager.ts:56-63 | During a gesture the gap becomes `InsertIndex` of the pointer and the indicator follows it. Without a gesture nothing changes. |
| DragDrop.DragDropManager.HandlePointerUp | src/content/ui/utilities/DragDropManager.ts:65-74 | Only the gesture's own pointer ends it. The end clears the state and the indicator and reorders by `ApplyReorder`, into a row of the list. |
| DragDrop.DragDropManager.HandlePointerCancel | src/content/ui/utilities/DragDropManager.ts:76-85 | Only the gesture's own pointer ends it. A cancel clears the state and the indicator and never reorders. |
| DragDrop.DragDropManager.TeardownDrag | src/content/ui/utilities/DragDropManager.ts:87-110 | Clears the gesture, sets the indicator to -1 and the after-last marker to false; only a commit yields a reorder. |
| DragDrop.DragDropManager.ComputeInsertIndex | src/content/ui/utilities/DragDropManager.ts:125-132 | The loop with early return computes `InsertIndex`. |
| DragDrop.DragDropManager.SetDropIndicator | src/content/ui/utilities/DragDropManager.ts:134-143 | The after-last marker is set exactly when the gap is at or past the last row; otherwise the indicator index is the gap. |
| DragDrop.DragDropManager.ClearDropIndicator | src/content/ui/utilities/DragDropManager.ts:145-150 | The indicator is -1 and the after-last marker is false. |
| Widget.Scoped | src/content/ui/CopyPastaWidget.ts:55-58 | Holds exactly the records `channelFilter(channel)` accepts, and no more of them than there are records. |
| Widget.ScopedAppend | src/content/ui/CopyPastaWidget.ts:55-58 | The filter keeps store order: scoping a concatenation scopes each part. |
| Widget.ScopedOne | src/content/ui/CopyPastaWidget.ts:55-58 | One record is kept exactly when `channelFilter` accepts it. |
| Widget.QueueMerge | src/content/ui/CopyPastaWidget.ts:201-210 | The written-back list has the same length as the full list. |
| Widget.QueueMergeSlot | src/content/ui/CopyPastaWidget.ts:204-208 | An out-of-scope slot keeps its record. The in-scope slot with j in-scope slots before it takes queue[j] when there is one, and otherwise keeps its own record. |
| Widget.QueueMergeUnchanged | src/content/ui/CopyPastaWidget.ts:201-210 | Writing back the scoped list in its store order changes nothing. |
| Widget.MoveItem | src/content/ui/CopyPastaWidget.ts:214-215 | The moved record ends at the target. Removing it from there gives the list with the source removed. |
| Widget.MoveItemPermutes | src/content/ui/CopyPastaWidget.ts:214-215 | A move is a permutation. |
| Widget.ReorderDropsIntoGap | src/content/ui/CopyPastaWidget.ts:213-216 | Moving the source row to `applyReorder`'s target is the same as inserting it at the drop gap and removing it from its old place. |
| Widget.RemoveAtMultiset | src/content/ui/CopyPastaWidget.ts:172 | A splice removes exactly one occurrence of the removed record. |
| Widget.RenderPointer | src/content/ui/CopyPastaWidget.ts:343-357 | The clamp is `min(pointer, max(0, len-1))`: 0 with no rows, a row index for a non-negative pointer, and a valid pointer is kept. |
| Widget.JsRem | src/content/ui/CopyPastaWidget.ts:374-387 | JavaScript's truncating `%`: Euclidean on non-negative operands, and always within (-n, n). |
| Widget.PasteText | src/content/ui/CopyPastaWidget.ts:445-448 | Whitespace-only content is never pasted; otherwise the trimmed content is pasted. |
| Widget.CopyPastaWidget.constructor | src/content/ui/CopyPastaWidget.ts:40-46 | The widget starts closed with no dialog open. |
| Widget.CopyPastaWidget.Open | src/content/ui/CopyPastaWidget.ts:48-65 | A no-op while open. Otherwise the working copy is the store's records in the page's channel, in store order, with an empty query and the first row selected. |
| Widget.CopyPastaWidget.BuildWidget | src/content/ui/CopyPastaWidget.ts:136-142 | A fresh search over the initial records shows all of them, with pointer 0. |
| Widget.CopyPastaWidget.Close | src/content/ui/CopyPastaWidget.ts:67-77 | Closes the widget and changes no other state; a no-op while closed. |
| Widget.CopyPastaWidget.Toggle | src/content/ui/CopyPastaWidget.ts:79-82 | Flips between open and closed. |
| Widget.CopyPastaWidget.Render | src/content/ui/CopyPastaWidget.ts:340-365 | The pointer becomes `RenderPointer` of the rows shown. |
| Widget.CopyPastaWidget.Refilter | src/content/ui/CopyPastaWidget.ts:160-163 | The search gets the working copy; the rows are recomputed and the pointer is reconciled, then clamped. |
| Widget.CopyPastaWidget.SelectNext | src/content/ui/CopyPastaWidget.ts:374-379 | Moves one row down modulo the row count; a no-op with no rows. |
| Widget.CopyPastaWidget.SelectPrev | src/content/ui/CopyPastaWidget.ts:381-387 | Moves one row up modulo the row count; a no-op with no rows. |
| Widget.CopyPastaWidget.GetSelected | src/content/ui/CopyPastaWidget.ts:389-391 | Undefined with no rows; otherwise the row under the pointer. |
| Widget.CopyPastaWidget.OnSelect | src/content/ui/CopyPastaWidget.ts:180-185 | Clicking a row selects it, except during a drag. |
| Widget.CopyPastaWidget.OnReorder | src/content/ui/CopyPastaWidget.ts:213-221 | The working copy is the move of the dragged record to the target. The pointer follows its id, and the full list is written back by `QueueMerge`. |
| Widget.CopyPastaWidget.MoveInWorkingCopy | src/content/ui/CopyPastaWidget.ts:214-219 | The splice move. With distinct ids and a blank query, the pointer lands on the target row. |
| Widget.CopyPastaWidget.PersistChannelOrder | src/content/ui/CopyPastaWidget.ts:201-210 | The store holds the full list with its in-scope slots rewritten from the working copy. |
| Widget.CopyPastaWidget.RefreshFromStore | src/content/ui/CopyPastaWidget.ts:239-246 | The working copy is the store's in-scope records, reread. |
| Widget.CopyPastaWidget.OnImport | src/content/ui/CopyPastaWidget.ts:269-290 | A payload that is not an array changes nothing. Otherwise the store merges it and the working copy is reread from the merged store. |
| Widget.CopyPastaWidget.OnAddSaved | src/content/ui/CopyPastaWidget.ts:254-261 | A record out of scope changes nothing. One in scope is prepended, and the pointer is `recomputeVisible` of the new rows with the record's id, clamped; so a visible record with a non-zero id is selected. |
| Widget.CopyPastaWidget.OnEditSaved | src/content/ui/CopyPastaWidget.ts:151-164 | A record still in scope replaces the one with its id in place, storage is untouched, and the pointer snaps to its row. One that left the scope triggers a full reread: storage is healed and the pointer is reconciled without a preferred id. |
| Widget.CopyPastaWidget.ReplaceInWorkingCopy | src/content/ui/CopyPastaWidget.ts:156-163 | The first record with that id is replaced; an absent id changes nothing. |
| Widget.CopyPastaWidget.OnDelete | src/content/ui/CopyPastaWidget.ts:167-179 | The record leaves both the store and the working copy. |
| Widget.CopyPastaWidget.RemoveFromWorkingCopy | src/content/ui/CopyPastaWidget.ts:169-178 | The first record with that id is removed from the working copy. |
| Widget.CopyPastaWidget.OnSearchInput | src/content/ui/CopyPastaWidget.ts:321-327 | The query becomes the typed value, the rows are its search and the pointer is 0. |
| Widget.CopyPastaWidget.OnPaste | src/content/ui/CopyPastaWidget.ts:186-190 | Outside a drag, pastes the record's trimmed content and closes. |
| Widget.CopyPastaWidget.PasteSelectedAndClose | src/content/ui/CopyPastaWidget.ts:84-89 | Nothing without a selection. Otherwise pastes the selection (unless blank) and closes. |
| Widget.CopyPastaWidget.OnKeyDown | src/content/ui/CopyPastaWidget.ts:105-131 | Does nothing while a dialog is open or the widget is closed. Otherwise Escape closes, ArrowDown and ArrowUp move the selection, and Enter/Space paste the selection and close. |
| Widget.CopyPastaWidget.OnPointerDown | src/content/ui/CopyPastaWidget.ts:94-104 | A press outside the widget closes it, unless a dialog is open. |
| Widget.CopyPastaWidget.OpenEntryDialog | src/content/ui/CopyPastaWidget.ts:408-417 | A dialog opens only when none is open, so at most one is open at a time. |
| Widget.CopyPastaWidget.OnDialogClose | src/content/ui/CopyPastaWidget.ts:413-415 | The dialog's `onClose` clears the dialog-open flag. |
| Widget.ReplaceInScope | src/content/ui/CopyPastaWidget.ts:203-208 | The `map` that consumes the queue builds exactly `QueueMerge`. |
| Widget.QueueMergeFront | src/content/ui/CopyPastaWidget.ts:204-208 | One turn of the map takes the next queue record into an in-scope slot. |
| Widget.MoveKeepsScope | src/content/ui/CopyPastaWidget.ts:214-215 | A move keeps every record in scope. |
| Widget.UpdateKeepsScope | src/content/ui/CopyPastaWidget.ts:152-158 | Replacing a record with an in-scope one keeps every record in scope. |
| Widget.RemoveKeepsScope | src/content/ui/CopyPastaWidget.ts:172 | A removal keeps every record in scope. |
| Widget.MoveKeepsDistinct | src/content/ui/CopyPastaWidget.ts:214-215 | A move keeps ids distinct. |
| Widget.RemoveAtDistinct | src/content/ui/CopyPastaWidget.ts:214 | A removal keeps ids distinct, and the removed id is gone. |
| Widget.InsertDistinct | src/content/ui/CopyPastaWidget.ts:215 | Inserting a record with a fresh id keeps ids distinct. |
| Widget.DistinctFind | src/content/ui/CopyPastaWidget.ts:218 | With distinct ids, the first index holding a record's id is that record's index. |
| SharedChannels.GetChannels | src/shared/channels.ts:3-7 | A record's channel list; in the model it is always an array, so the `[]` fallback is not reached. |
| SharedChannels.HasChannelMatch | src/shared/channels.ts:9-20 | A record without channels matches every channel. |
| SharedChannels.HasChannelMatchCases | src/shared/channels.ts:9-20 | A blank channel and a record without channels both match. Otherwise a match needs some channel to equal the trimmed channel, ignoring case. |
| SharedCopyPasta.FirstLine | src/shared/copyPasta.ts:11 | The text before the first `\n` or `\r\n`. It is a prefix without `\n` that ends at the end of the text or right before `\n` or `\r\n`, and never ends in the `\r` of a `\r\n`. |
| SharedCopyPasta.Truncate | src/shared/copyPasta.ts:15 | At most `max` characters. A longer string becomes its first `max-3` characters plus "...". |
| SharedCopyPasta.DeriveTitle | src/shared/copyPasta.ts:6-16 | A title is at most 60 characters. |
| SharedCopyPasta.DeriveTitleBlank | src/shared/copyPasta.ts:7-9 | Blank content, and only blank content, is titled "Copypasta". |
| SharedCopyPasta.DeriveTitleFirstLine | src/shared/copyPasta.ts:10-15 | Otherwise the title is the trimmed first line of the trimmed content, truncated to 60. |
| SharedCopyPasta.DeriveTitleOneLine | src/shared/copyPasta.ts:6-16 | A title never contains a line break. |
| SharedCopyPasta.DeriveTitleFallbackDead | src/shared/copyPasta.ts:12-13 | The fallback to the whole value never applies to non-blank content. |
| SharedCopyPasta.DeriveDescription | src/shared/copyPasta.ts:18-24 | A description is at most 160 characters. |
| SharedCopyPasta.DeriveDescriptionCases | src/shared/copyPasta.ts:18-24 | Blank content gives "Saved message". Trimmed content up to 160 characters is kept verbatim, newlines included; longer content becomes 157 characters plus "...". |
| SharedCopyPasta.BuildSearchHaystack | src/shared/copyPasta.ts:34-36 | The lowercased content and the lowercased derived title are both substrings of the search haystack, so a blank snippet matches "copypasta". |
| ContentCopyPasta.ChannelFilter | src/content/utils/copyPasta.ts:8-16 | A scope that lowercases to nothing, and a record without channels, are always accepted. |
| ContentCopyPasta.ChannelFilterEmptyScope | src/content/utils/copyPasta.ts:9-11 | The empty scope accepts every record, including channel-specific ones. |
| ContentCopyPasta.ChannelFilterUnscoped | src/content/utils/copyPasta.ts:12-13 | A record with no channels is accepted in every scope. |
| ContentCopyPasta.ChannelFilterScoped | src/content/utils/copyPasta.ts:14 | Otherwise a record is accepted exactly when some channel equals the scope, ignoring case. |
| ContentCopyPasta.ChannelFilterIgnoresCase | src/content/utils/copyPasta.ts:9 | The scope is case-insensitive. |
| ContentCopyPasta.HasChannelMatchIsChannelFilter | src/shared/channels.ts:9-20 | `hasChannelMatch(item, c)` is `channelFilter(trim(c))(item)`. |
| ContentCopyPasta.ScopesAgreeOnTrimmed | src/content/utils/copyPasta.ts:8-16 | For a channel without surrounding whitespace, `hasChannelMatch` and `channelFilter` agree. |
| ContentCopyPasta.NormalizeChannelInput | src/content/utils/copyPasta.ts:18-37 | Blank input gives undefined. A thrown error always carries the fixed message and only happens for a cleaned name that is not valid. A result is either the lowercased URL channel, or the valid name with one '@' removed and lowercased. |
| ContentCopyPasta.NormalizeChannelInputUrl | src/content/utils/copyPasta.ts:23-25 | A parseable URL gives its last non-empty path segment, lowercased, with no character check. |
| ContentCopyPasta.NormalizeChannelInputName | src/content/utils/copyPasta.ts:31-36 | Other input loses one leading '@' and is lowercased. A valid name is returned, '@' alone gives undefined, and anything else throws. |
| PopupChannel.Candidate | src/popup/app/channel.ts:8-13 | A parseable URL with a non-empty segment gives its last such segment; anything else gives the value itself, so a URL failure falls through. |
| PopupChannel.NormalizeChannel | src/popup/app/channel.ts:1-21 | The result is '' or a valid channel name, never an error. Blank input gives ''. A non-empty result is the candidate trimmed, without one '@', and lowercased. For non-blank input whose cleaned candidate is a valid name, that name is the result. |
| PopupChannel.NormalizeChannelOfName | src/popup/app/channel.ts:14-20 | A valid name that is not a URL normalises to itself. |
| PopupChannel.NormalizeChannelOfAtName | src/popup/app/channel.ts:14 | One leading '@' is dropped. |
| PopupChannel.NormalizeChannelOfUrl | src/popup/app/channel.ts:8-13 | A URL whose last path segment is a valid name gives that name. |
| PopupChannel.NormalizeChannelIdempotent | src/popup/app/channel.ts:1-21 | Normalising twice changes nothing, unless the result itself parses as a URL. |
| PopupFilter.ParseParts | src/popup/app/CopyPastaFilter.ts:14-22 | The token loop keeps at most one plain word per token. |
| PopupFilter.ParsePartsTags | src/popup/app/CopyPastaFilter.ts:16-17 | The tag set holds exactly the lowercased bodies of the `#` tokens. |
| PopupFilter.ParsePartsChannel | src/popup/app/CopyPastaFilter.ts:18-19 | The channel filter is the last `channel:` token's value, lowercased, or empty when there is none. |
| PopupFilter.ParsePartsWords | src/popup/app/CopyPastaFilter.ts:20-21 | The words are exactly the other tokens, lowercased. |
| PopupFilter.FilterOf | src/popup/app/CopyPastaFilter.ts:5-22 | There are no criteria exactly when the query is blank. |
| PopupFilter.Accepts | src/popup/app/CopyPastaFilter.ts:24-47 | Without criteria every record is accepted. |
| PopupFilter.BlankAcceptsAll | src/popup/app/CopyPastaFilter.ts:6-7 | A blank query accepts every record. |
| PopupFilter.ChannelFilterRejectsUnscoped | src/popup/app/CopyPastaFilter.ts:25-30 | A channel filter other than '' or '*' rejects records without channels. |
| PopupFilter.NarrowingNeverWidens | src/popup/app/CopyPastaFilter.ts:24-47 | Appending a `#tag` or plain-word token never accepts a record that the shorter query rejected. |
| PopupFilter.TokensOfExtended | src/popup/app/CopyPastaFilter.ts:9 | The whitespace split of `query + " " + token` is the split of the query plus the token. |
| PopupFilter.TokensBlankTrim | src/popup/app/CopyPastaFilter.ts:6-9 | A query with a token is not blank after trimming. |
| PopupFilter.CreateFilter | src/popup/app/CopyPastaFilter.ts:5-48 | The token loop collects exactly `FilterOf(query)`: none for a blank query, else the tags, the last channel and the words. |
| TwitchPlatform.LastNonEmpty | src/core/TwitchPlatform.ts:19-25 | Empty exactly when every piece is empty; otherwise one of the pieces. |
| TwitchPlatform.LastNonEmptyAt | src/core/TwitchPlatform.ts:19-25 | A non-empty piece followed only by empty pieces is the one returned. |
| TwitchPlatform.NonEmptyPieces | src/popup/app/channel.ts:10 | `filter(Boolean)` keeps only non-empty pieces. |
| TwitchPlatform.LastOfNonEmptyPieces | src/popup/app/channel.ts:10-11 | The last of the non-empty pieces is the last non-empty piece, and exactly one of the two is missing when the other is. |
| TwitchPlatform.NonEmptyPiecesAppend | src/popup/app/channel.ts:10 | Filtering distributes over appending one piece. |
| TwitchPlatform.ChannelOf | src/core/TwitchPlatform.ts:11-31 | An undefined or unparseable URL gives the empty channel. |
| TwitchPlatform.ChannelHasNoSlash | src/core/TwitchPlatform.ts:11-31 | A channel read from a URL never contains '/'. |
| TwitchPlatform.GetChannel | src/core/TwitchPlatform.ts:11-31 | An undefined or unparseable URL gives ''. Otherwise the descending scan returns the last non-empty '/'-segment of the pathname, or ''. |
| TwitchPlatform.ChatInputRequest | src/core/TwitchPlatform.ts:115-122 | `setChatInput('')` sends nothing; any other text is sent as is. |
| TwitchPlatform.ParseBridgeDetail | src/core/TwitchPlatform.ts:171-182 | A falsy detail gives null and an object is returned as is. A string is parsed, giving null when it is not JSON, and anything else gives null. |
| ImportExport.ToChannel | src/popup/app/ImportExportManager.ts:41-47 | A channel exists exactly when the value is a string that, trimmed, without one '@' and lowercased, is a valid name; the channel is that form. |
| ImportExport.ToChannels | src/popup/app/ImportExportManager.ts:50-53 | Holds exactly the valid channels of the listed values. |
| ImportExport.ToChannelsAppend | src/popup/app/ImportExportManager.ts:51-55 | Converting a concatenation converts each part, so the channels keep the listed order and multiplicity. |
| ImportExport.ToChannelsOne | src/popup/app/ImportExportManager.ts:53-54 | One value gives its channel, or nothing when it is not a valid name. |
| ImportExport.ImportCandidates | src/popup/app/ImportExportManager.ts:50-58 | The names added to the set, in insertion order: the valid listed channels, then the legacy `channel`. |
| ImportExport.CollectChannels | src/popup/app/ImportExportManager.ts:49-60 | The channels are distinct and valid, and are exactly the listed ones plus the legacy `channel`, in the order each was first added. |
| ImportExport.CollectChannelsLegacyLast | src/popup/app/ImportExportManager.ts:49-60 | The legacy `channel` comes after the de-duplicated list, and only when the list does not already hold it. |
| ImportExport.TagStrings | src/popup/app/ImportExportManager.ts:72 | `String`-converted tags with empty ones dropped and no trimming. |
| ImportExport.TagStringsAppend | src/popup/app/ImportExportManager.ts:72 | Converting a concatenation converts each part, so the tags keep their order and multiplicity. |
| ImportExport.TagStringsOne | src/popup/app/ImportExportManager.ts:72 | One tag is kept, converted and untrimmed, exactly when its string is not empty. |
| ImportExport.ImportEntry | src/popup/app/ImportExportManager.ts:62-78 | An entry without non-blank text is skipped. Otherwise its content is the trimmed first non-blank field, and its numeric id is kept unless it is 0 or taken, else `nextId`. |
| ImportExport.ImportAll | src/popup/app/ImportExportManager.ts:62-78 | Never drops an existing record and adds at most one per entry. |
| ImportExport.ImportAllKeepsPrefix | src/popup/app/ImportExportManager.ts:62-80 | Existing records stay unchanged at the front. |
| ImportExport.ImportAllDistinct | src/popup/app/ImportExportManager.ts:70-76 | If the existing ids are distinct, all ids are distinct after the import. |
| ImportExport.ImportAllAppends | src/popup/app/ImportExportManager.ts:69-77 | An entry with text appends exactly its record at the end. |
| ImportExport.ImportAllSkips | src/popup/app/ImportExportManager.ts:63-68 | An entry without text adds nothing. |
| ImportExport.HandleImport | src/popup/app/ImportExportManager.ts:28-88 | A payload that is not an array takes the error path and leaves storage untouched. Otherwise storage holds the list read plus the imported records, saved and normalised. |
| ImportExport.ImportLoop | src/popup/app/ImportExportManager.ts:62-78 | The `for` loop builds exactly `ImportAll`. |
| EditDialog.Prefill | src/popup/app/EditDialog.ts:27-31 | A new entry starts with blank fields. An edited one starts with its content, and tags without whitespace split back into the same tags. |
| EditDialog.JoinedTagsSplitBack | src/popup/app/EditDialog.ts:30-56 | Tags without whitespace, joined with spaces and split on whitespace, come back unchanged. |
| EditDialog.NormalizedChannels | src/popup/app/EditDialog.ts:57-64 | Every kept channel is a valid name. |
| EditDialog.KeptChannel | src/popup/app/EditDialog.ts:61-62 | A piece gives at most its normalised channel, which is a valid name. |
| EditDialog.NormalizedChannelsAppend | src/popup/app/EditDialog.ts:59-62 | Normalising a concatenation normalises each part, so the channels keep the order of the pieces. |
| EditDialog.NormalizedChannelsOne | src/popup/app/EditDialog.ts:61-62 | One piece is kept, normalised, exactly when it does not normalise to ''. |
| EditDialog.NormalizedChannelsMembers | src/popup/app/EditDialog.ts:57-62 | A channel is kept exactly when some piece normalises to it and it is not ''. |
| EditDialog.BuildPayload | src/popup/app/EditDialog.ts:52-72 | Returns null exactly for blank content. Otherwise the content is trimmed; the tags are the whitespace tokens; the channels are distinct valid names taken from the comma/whitespace pieces; editing keeps the id and adding uses the next id. |
| EditDialog.SubmitUnchanged | src/popup/app/EditDialog.ts:27-72 | Submitting the prefilled form of an editable record unchanged gives back that record. |
| EditDialog.ChannelsAreTokens | src/popup/app/EditDialog.ts:57-60 | Channel names contain no separator of the channel field. |
| EditDialog.NormalizedChannelsOfNames | src/popup/app/EditDialog.ts:57-62 | Valid names that are not URLs normalise to themselves. |
| TagEditor.TagOf | src/content/ui/components/TagInput.ts:69-72 | A piece's tag is trimmed. |
| TagEditor.AddTags | src/content/ui/components/TagInput.ts:67-77 | Existing tags keep their order and only non-empty trimmed tags are appended. |
| TagEditor.AddTag | src/content/ui/components/TagInput.ts:70-76 | A piece's tag is appended exactly when it is non-empty and new. |
| TagEditor.AddTagsDistinct | src/content/ui/components/TagInput.ts:74-76 | If tags start distinct they stay distinct through any sequence of commits. |
| TagEditor.AddTagsMembers | src/content/ui/components/TagInput.ts:67-77 | A tag is present afterwards exactly when it was before or some piece stands for it. |
| TagEditor.TagInput.constructor | src/content/ui/components/TagInput.ts:16 | The field starts with the initial tags and empty input. |
| TagEditor.TagInput.SetTags | src/content/ui/components/TagInput.ts:35-39 | Replaces the tags and notifies. |
| TagEditor.TagInput.CommitPendingTag | src/content/ui/components/TagInput.ts:60-84 | Always returns true. Blank input changes nothing. Otherwise the input is cleared, each comma piece is committed, and `onChange` fires once exactly when something was added. |
| TagEditor.TagInput.CommitPieces | src/content/ui/components/TagInput.ts:67-77 | The loop computes `AddTags`, and its flag says whether anything was added. |
| TagEditor.TagInput.CommitPiece | src/content/ui/components/TagInput.ts:68-76 | One turn of the loop is `AddTag`. |
| TagEditor.TagInput.RemoveTag | src/content/ui/components/TagInput.ts:106-112 | Removes exactly that tag value and keeps the others in order. |
| ChannelEditor.ChannelInput.constructor | src/content/ui/components/ChannelInput.ts:22 | The field starts with the initial channels and empty input. |
| ChannelEditor.ChannelInput.SetChannels | src/content/ui/components/ChannelInput.ts:42-46 | Replaces the channels and notifies. |
| ChannelEditor.ChannelInput.CommitPendingChannel | src/content/ui/components/ChannelInput.ts:67-90 | Blank input returns true and changes nothing. A thrown error reports its message, keeps the input and channels, and returns false. Otherwise the input is cleared and a new channel is appended with one `onChange`. |
| ChannelEditor.ChannelInput.CommitNormalized | src/content/ui/components/ChannelInput.ts:72-89 | After normalising, an error keeps everything but the error list. Otherwise the input is cleared and a new, defined channel is appended. |
| ChannelEditor.ChannelInput.RemoveChannel | src/content/ui/components/ChannelInput.ts:112-118 | Removes exactly that channel value and notifies. |
| ChannelEditor.Committed | src/content/ui/components/ChannelInput.ts:75-83 | A commit keeps the channels or appends one new non-empty channel, so distinct channels stay distinct. |
| EntryDialog.InitialChannels | src/content/ui/AddDialog.ts:78-84 | The item's channels when it has some; otherwise the normalised suggestion when valid, and nothing for an invalid one. |
| EntryDialog.Replaced | src/content/ui/AddDialog.ts:177-186 | The first record with the entry's id is replaced and every other record is kept. |
| EntryDialog.AddDialog.constructor | src/content/ui/AddDialog.ts:39-84 | The form is filled from the edited record (or empty), the channels from `InitialChannels`, and nothing is submitted or saved yet. |
| EntryDialog.AddDialog.Close | src/content/ui/AddDialog.ts:112-117 | Detaches and calls `onClose` once. |
| EntryDialog.AddDialog.OnOverlayClick | src/content/ui/AddDialog.ts:119-121 | A press on the backdrop closes, calling `onClose`; one inside the dialog does nothing. |
| EntryDialog.AddDialog.OnKeyDown | src/content/ui/AddDialog.ts:123-128 | Escape closes, calling `onClose`; other keys do nothing. |
| EntryDialog.AddDialog.OnCancel | src/content/ui/AddDialog.ts:132 | Cancel closes, calling `onClose`. |
| EntryDialog.AddDialog.Submit | src/content/ui/AddDialog.ts:134-171 | A repeated submission saves nothing. A blank message sets "Message is required" and saves nothing. Otherwise the entry is saved exactly once (edit via `updateEntry`, add via `add` with the draft id 0) and the dialog closes, calling `onClose`. |
| EntryDialog.AddDialog.Commit | src/content/ui/AddDialog.ts:158-170 | Sets `isSubmitting`, saves once, hands the stored record on and closes. |
| EntryDialog.AddDialog.SaveEntry | src/content/ui/AddDialog.ts:158-168 | An edit goes through `updateEntry`; an addition goes through `add` and returns the stored record. |
| EntryDialog.AddDialog.UpdateEntry | src/content/ui/AddDialog.ts:177-186 | Replaces the record with the same id in place and saves the whole list; a missing id adds the entry instead. |
| EntryDialog.SavedEntry | src/content/ui/AddDialog.ts:151-168 | An edit hands on the entry as built; an addition hands on a record whose id is not in the list read back. |
| EntryDialog.SavedCases | src/content/ui/AddDialog.ts:151-168 | An edit keeps the entry as built. An addition stores it under an id not yet in the list, after the list read back. |
| EntryDialog.UpdatedStorage | src/content/ui/AddDialog.ts:177-186 | A missing id adds one record; a present id keeps the length. |
| EntryDialog.UpdatedStorageRead | src/content/ui/AddDialog.ts:177-186 | After an update of a present record, reading the store gives the list with that record replaced, normalised. |
| ContentScript.Normalized | src/content/index.ts:114 | The message with every U+034F removed and then trimmed contains no marker and is trimmed. |
| ContentScript.Adjusted | src/content/index.ts:168 | The marked message is the message, a space and the marker, two characters longer. |
| ContentScript.AdjustedNormalizes | src/content/index.ts:114-134 | A message and its marked form normalise alike. |
| ContentScript.CurrentState | src/content/index.ts:91-99 | A missing record, or one older than 30000 ms, reads as the empty state; otherwise the stored record. |
| ContentScript.EnterStep | src/content/index.ts:114-146 | The stored text is always the normalised message. A pending arrow rewrite records the marker and rewrites nothing. A repeat flips `alt` and is sent with " " + U+034F when `alt` is set. New text resets `alt`. The input is rewritten only when the text differs. |
| ContentScript.RepeatAlternates | src/content/index.ts:128-146 | Sending the same message again within 30 s flips between marked and plain. |
| ContentScript.SecondSendMarked | src/content/index.ts:128-146 | A first send goes out unchanged and the second goes out marked. |
| ContentScript.ArrowStep | src/content/index.ts:157-173 | Recalling the stored message rewrites it marked and sets `pendingAdjusted`; anything else clears it. The timestamp is refreshed either way. |
| ContentScript.RecallThenSend | src/content/index.ts:118-173 | A recalled message sent with Enter is recorded with the marker and rewrites nothing. |
| ContentScript.DuplicateBypass.constructor | src/content/index.ts:91 | The bypass starts with no records, the flag off and the channel read at load as the last channel. |
| ContentScript.DuplicateBypass.ApplySettings | src/content/index.ts:45-55 | The bypass flag follows the setting. |
| ContentScript.DuplicateBypass.OnEnter | src/content/index.ts:101-149 | Does nothing when the bypass is off, the key is not Enter, the prompt is not focused or the text is blank. Otherwise it stores `EnterStep`'s record for the channel and returns its rewrite. |
| ContentScript.DuplicateBypass.OnArrow | src/content/index.ts:151-209 | ArrowUp and ArrowDown apply `ArrowStep` to the channel's record when the bypass is on, a prompt exists (focus is not required) and its text is not blank. Otherwise nothing changes. |
| ContentScript.DuplicateBypass.PollChannel | src/content/index.ts:30-40 | A new, non-empty channel becomes the last channel and is fetched; otherwise nothing changes. |
| ContentScript.HandleDataReset | src/content/index.ts:72-77 | The `data-reset` message empties the store, so it reads as empty and `getAll` writes nothing back, and closes the widget. The working copy and the dialog flag are left as they were. |
| Emotes.SetAll | src/content/emotes/EmoteService.ts:48 | Setting emotes keeps existing keys, and keys stay equal to their emotes' codes. |
| Emotes.SetAllKeys | src/content/emotes/EmoteService.ts:48 | The keys are the old ones plus exactly the codes set. |
| Emotes.Fill | src/content/emotes/EmoteService.ts:45-58 | After the clear and the fills, every key is its emote's code. |
| Emotes.SetAllLastWins | src/content/emotes/EmoteService.ts:48 | The last emote with a given code is the one stored. |
| Emotes.SetAllAppend | src/content/emotes/EmoteService.ts:45-58 | Filling from one list and then another is filling from their concatenation. |
| Emotes.SetAllSnoc | src/content/emotes/EmoteService.ts:48 | Setting one more emote is a single map update. |
| Emotes.FillIsSetAll | src/content/emotes/EmoteService.ts:45-58 | Filling from the four outcomes is setting every fulfilled emote in turn; rejected providers contribute nothing. |
| Emotes.LaterProviderWins | src/content/emotes/EmoteService.ts:45-58 | In the order twitch, 7tv, ffz, bttv, the later provider wins on the same code. |
| Emotes.Lookup | src/content/emotes/EmoteService.ts:113-115 | `getEmote` prefers the channel map over the global map. |
| Emotes.LookupAgreesWithAll | src/content/emotes/EmoteService.ts:113-122 | `getEmote` finds exactly what the code-keyed `getAllEmotes` union lists, with channel entries overriding global ones. |
| Emotes.EmoteService.constructor | src/content/emotes/EmoteService.ts:18-27 | Empty caches, zero timestamps, no channel, nothing in flight. |
| Emotes.EmoteService.BeginGlobalFetch | src/content/emotes/EmoteService.ts:29-35 | Starts exactly when 30 minutes have passed since the last fetch and none is in flight. |
| Emotes.EmoteService.CompleteGlobalFetch | src/content/emotes/EmoteService.ts:45-65 | The global map is refilled, the timestamp is set and the in-flight flag is cleared. |
| Emotes.EmoteService.BeginChannelFetch | src/content/emotes/EmoteService.ts:68-79 | Starts exactly for a non-empty channel that is not the same fresh one, when no channel fetch is in flight. |
| Emotes.EmoteService.CompleteChannelFetch | src/content/emotes/EmoteService.ts:89-110 | The channel map is refilled, the current channel and timestamp are set and the in-flight flag is cleared. |
| Emotes.FillMap | src/content/emotes/EmoteService.ts:45-58 | `clear` followed by the provider loops computes `Fill`. |
| EmoteParser.WhiteRun | src/content/emotes/emoteParser.ts:5 | The longest whitespace prefix. |
| EmoteParser.SplitKeepingWhite | src/content/emotes/emoteParser.ts:5 | `split(/(\s+)/)` always yields at least one piece. |
| EmoteParser.SplitKeepingWhiteAlternates | src/content/emotes/emoteParser.ts:5 | The pieces alternate between words and non-empty whitespace runs, starting and ending with a word. |
| EmoteParser.AlternatingPieces | src/content/emotes/emoteParser.ts:5 | Every piece is a word or a whitespace run. |
| EmoteParser.SplitKeepingWhiteConcat | src/content/emotes/emoteParser.ts:5 | The pieces concatenate back to the text. |
| EmoteParser.WordSegments | src/content/emotes/emoteParser.ts:10-36 | Every piece yields at least one node. |
| EmoteParser.WordSegmentsCases | src/content/emotes/emoteParser.ts:10-36 | A blank piece stays text. A word becomes an image exactly when `getEmote` finds it, with that emote; otherwise it stays text. |
| EmoteParser.Segments | src/content/emotes/emoteParser.ts:7-37 | Some node is produced whenever there is a piece. |
| EmoteParser.ShownAppend | src/content/emotes/emoteParser.ts:7-37 | The shown text of appended segments is the concatenation of their shown texts. |
| EmoteParser.WordShown | src/content/emotes/emoteParser.ts:15-35 | A piece shows as itself when images are read by their `alt` code. |
| EmoteParser.SegmentsShown | src/content/emotes/emoteParser.ts:7-37 | The segments of the pieces show their concatenation. |
| EmoteParser.ParseRoundTrip | src/content/emotes/emoteParser.ts:3-40 | Replacing each emote segment by its code reproduces the input, given that cache keys equal codes. |
| EmoteParser.ParseEmotesToHtml | src/content/emotes/emoteParser.ts:3-40 | The `forEach` appends exactly the segments of every piece, in input order. |
| EmoteParser.WordNodes | src/content/emotes/emoteParser.ts:8-36 | One turn of the loop yields that piece's segments. |
| AppSettings.Validate | src/shared/settings.ts:18-21 | Each field keeps a boolean and otherwise defaults (`showToggleIcon` true, `enableDuplicateBypass` false). |
| AppSettings.Encode | src/shared/settings.ts:29-38 | The stored object has boolean fields. |
| AppSettings.ValidateFieldwise | src/shared/settings.ts:18-21 | Each field is decided by its own stored value alone. |
| AppSettings.ValidateEncode | src/shared/settings.ts:18-38 | Validating stored settings gives them back. |
| AppSettings.Load | src/shared/settings.ts:12-27 | `loadSettings` validates a stored value; a missing key or a failure gives `DEFAULT_SETTINGS`. |
| AppSettings.LoadNonBooleans | src/shared/settings.ts:10-21 | A stored value without boolean fields loads as the defaults. |
| AppSettings.Save | src/shared/settings.ts:29-38 | The same object is written to both stores, and a failed write keeps the store as it was. |
| AppSettings.LoadAsync | src/shared/settings.ts:40-60 | Found settings are validated and written back to `localStorage`. Otherwise the defaults are returned and nothing is written. |
| AppSettings.SaveThenLoad | src/shared/settings.ts:12-38 | `loadSettings` after `saveSettings(s)` returns s when the local write works. |
| AppSettings.SaveThenLoadAsync | src/shared/settings.ts:29-60 | `loadSettingsAsync` after `saveSettings(s)` returns s when the extension write works. |
| AppSettings.LoadAsyncSyncsLocal | src/shared/settings.ts:51-53 | After the asynchronous load has written back, the synchronous load agrees with it. |
| AppSettings.SaveFailureKeeps | src/shared/settings.ts:29-38 | A save whose writes both fail changes neither store. |
| Strings.Trim | src/shared/channels.ts:10 | `trim` gives a string with no whitespace at either end, never longer. |
| Strings.TrimFixed | src/shared/channels.ts:10 | Trimming is the identity exactly on trimmed strings. |
| Strings.TrimIdempotent | src/shared/channels.ts:10 | Trimming twice is trimming once. |
| Strings.TrimEmptyIffBlank | src/shared/channels.ts:10-12 | `trim` gives '' exactly for blank input. |
| Strings.Lower | src/shared/channels.ts:10 | Lowercasing keeps the length and maps each character. |
| Strings.LowerIdempotent | src/content/utils/copyPasta.ts:9 | Lowercasing twice is lowercasing once. |
| Strings.ChannelNameCanonical | src/core/LocalStore.ts:14-24 | A valid channel name is fixed by trimming and lowercasing. |
| Strings.StripLeading | src/popup/app/channel.ts:14 | `replace(/^@/, '')` drops at most one leading '@'. |
| Strings.RemoveAll | src/content/index.ts:114 | The marker is gone and nothing else is added. |
| Strings.Tokens | src/popup/app/EditDialog.ts:56 | `split(/\s+/).filter(Boolean)` gives no more tokens than there are characters. |
| Strings.TokensWellFormed | src/popup/app/EditDialog.ts:56 | Every whitespace token is non-empty and free of separators. |
| Strings.TokensJoinWith | src/popup/app/EditDialog.ts:30-57 | Splitting joined tokens gives the tokens back. |
| Strings.TokensTrim | src/popup/app/CopyPastaFilter.ts:6-9 | Trimming does not change the whitespace tokens. |
| Strings.Split | src/core/TwitchPlatform.ts:17 | `split('/')` always yields at least one piece. |
| Strings.JoinSplit | src/core/TwitchPlatform.ts:17 | Joining the pieces of a split gives the string back. |
| Strings.SplitPiecesFree | src/core/TwitchPlatform.ts:17 | No piece contains the separator. |
| Strings.Dedup | src/core/LocalStore.ts:27-40 | `Array.from(new Set(s))` is distinct and holds exactly the values of s, in the order of their first occurrence in s. |
| Strings.DedupDistinct | src/core/LocalStore.ts:40 | De-duplicating distinct values changes nothing. |
| Strings.Without | src/content/ui/components/TagInput.ts:109 | `filter(x => x !== v)` removes exactly v and keeps every other value. |
| Strings.WithoutAppend | src/content/ui/components/TagInput.ts:109 | `filter` keeps order: filtering a concatenation filters each part. |
| Strings.WithoutOne | src/content/ui/components/TagInput.ts:109 | A single value is kept exactly when it differs from v. |
| Strings.WithoutDistinct | src/content/ui/components/ChannelInput.ts:115 | On distinct values, filtering one out removes exactly its position. |
| Strings.WithoutKeepsDistinct | src/content/ui/components/ChannelInput.ts:115 | Removing a chip keeps the values distinct. |
| Strings.AddNew | src/popup/app/ImportExportManager.ts:55-58 | `Set.add` keeps values distinct and adds exactly the one value. |

## Left out

- Impulse cache: the store's in-memory cache (src/core/Impulse is not part of this model) is assumed to agree with storage, so `add` and `delete` always rehydrate from the stored array.
- JSON parsing and `localStorage` errors: the store's array is the parsed value, and unreadable JSON reads as the empty array. Settings slots stand for "missing", "unreadable" and "stored".
- URL parsing: `new URL` is a `UrlParser` parameter that yields the pathname.
- Network: the provider fetches and response decoders in EmoteService, `getChannelId` and `getChannelIdFromApi`, and the bridge's event round trip with its 200 ms timeout are not modelled. Their results enter as parameters.
- Host-page internals: `bridge.ts` (React prop walking, `execCommand`) and `ToggleButton.ts` are not modelled.
- DOM: element building, styles, focus handling (`refocusChatInput`, `focusSearch`), `scrollIntoView` and the row markup are not modelled. The drag handle is disabled for a non-blank query or fewer than two rows (src/content/ui/components/ListItemRenderer.ts:62). `Widget.CopyPastaWidget.OnReorder` does not require that rule: it accepts any two rows of the working copy, and the rule appears only as the blank-query condition of its pointer guarantee.
- Geometry: row midpoints (`rect.top + rect.height / 2`, a float) are an integer function, and widget positioning is left out.
- Timers and clocks: `setInterval`, `setTimeout`, `requestAnimationFrame` and `Date.now` are left out; time is a parameter, and the arrow handler is modelled at the frame it defers to.
- Event listeners: their registration and removal are left out. In particular, `teardownDrag` removes the same listener twice, leaving one of `onUp`/`onCancel` attached; the model does not claim anything about leaks.
- Concurrency: the emote fetches are split into a begin step and a completion step. Interleavings of other code between them are not modelled, and neither is the unreachable `catch` of the fetches.
- Export: export only serialises the list. Both the popup's and the widget's export are left out.
- The widget's file reading and `window.alert` are left out; the handler is modelled from the parsed payload on (`Widget.CopyPastaWidget.OnImport`).
- The runtime message listener (src/content/index.ts:59-78): only its `data-reset` branch is modelled, as `ContentScript.HandleDataReset`. Its `sendResponse` replies are left out, because they are messaging I/O.
- The listener's `paste` branch is left out. It hands `msg.text || ''` to `setChatInput`, which is modelled as `TwitchPlatform.ChatInputRequest`.
- The listener's `getChannel` branch is left out. It only replies with `getChannel(location.href)`, which is modelled as `TwitchPlatform.GetChannel`.
- The listener's `settings-changed` branch is left out. It reruns `applySettings`, whose bypass flag is modelled as `ContentScript.DuplicateBypass.ApplySettings`; the toggle-button half is DOM.
- The Ctrl+Space shortcut is left out. It only calls `widget.toggle()`, which is modelled as `Widget.CopyPastaWidget.Toggle`.
- Clipboard copy (`onCopy`) is left out.
- SharedChannels.GetChannels: the `Array.isArray` fallback of src/shared/channels.ts:4-6 cannot arise, because every record here is typed and its `channels` is always a list.
- Text model: lowercasing is ASCII only, and lengths are counted in characters rather than UTF-16 code units.
- Number model: only integral numbers are modelled among stored values.
- Emotes.SetAll: its own contract only says that keys are kept and stay codes; the exact key set is stated by `Emotes.SetAllKeys` and the value under each code by `Emotes.SetAllLastWins`.
- TwitchPlatform.LastNonEmpty: its own contract does not say "last"; that is stated by `TwitchPlatform.LastNonEmptyAt`.
- `getAllEmotes` returns an array of values; the model keeps the code-keyed map and not the array's order.
- ContentCopyPasta.NormalizeChannelInput: the URL branch after `getChannel` (src/content/utils/copyPasta.ts:26-28) cannot be reached, because `getChannel` has already returned that URL's last non-empty segment. The model shows that it is dead instead of modelling it.

## Notes

- The settings tests (tests/shared/settings.test.ts:12,26) expect `loadSettings` to return `{ showToggleIcon: true }` exactly. The code returns both fields (src/shared/settings.ts:10), and the model follows the code.
- `normalize` does not drop records with empty content (src/core/LocalStore.ts:79-87); only the popup import skips them. The model follows that.

## Findings

| source | as written | input that shows it | evidently intended | confidence | as-written member | corrected member |
|---|---|---|---|---|---|---|
| src/core/LocalStore.ts:60 | `coerceTags` marks the record as changed when some mapped tag differs from `String(tags[idx]).trim()`. Every mapped tag already equals that, so only a dropped tag marks a change. | stored tags `[" a "]`: they read as `["a"]` while `mutated` stays false, so `getAll` never writes the trimmed tag back | a tag counts as changed unless it was stored as exactly that string, so the self-healing write-back stores trimmed tags | not executed | Storage.CoerceTagsAsWrittenMissesTrim | Storage.CoerceTagsFlagsRewrite |

The store follows the code as written: `Storage.CoerceItem` runs `Storage.CoerceTagsAsWritten`, so `getAll`, `hydrate`, `delete` and the widget's rereads never rewrite an untrimmed tag on its own (`Storage.GetAllKeepsUntrimmedTag`). `Storage.CoerceTags` and `Storage.CoerceItemIntended` carry the intended comparison, and `Storage.CoerceTagsFlagsRewrite` is proved about it.
