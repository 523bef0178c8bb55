/** The page's add/edit dialog: its initial channels, the submit handler
    with its single-save guard, the store update of an edit, and the close
    paths that all report back to the widget. */
module EntryDialog {
  import opened Wrappers
  import opened Strings
  import opened Values
  import opened Types
  import opened Storage
  import opened TwitchPlatform
  import opened ContentCopyPasta
  import opened TagEditor
  import opened ChannelEditor

  const MessageRequired := "Message is required"

  /** The channels the channel field starts with: the edited record's, or
      else the normalised suggestion when it is a valid channel. */
  function InitialChannels(initialItem: Option<CopyPasta>, suggestion: string, parse: UrlParser): (r: seq<string>)
    ensures initialItem.Some? && initialItem.value.channels != [] ==> r == initialItem.value.channels
    ensures (initialItem.None? || initialItem.value.channels == []) ==>
              (r == [] || (|r| == 1 && NormalizeChannelInput(suggestion, parse) == Ok(Some(r[0]))))
    ensures ((initialItem.None? || initialItem.value.channels == [])
             && NormalizeChannelInput(suggestion, parse).Ok? && NormalizeChannelInput(suggestion, parse).value.Some?)
            ==> r == [NormalizeChannelInput(suggestion, parse).value.value]
  {
    var initial := if initialItem.Some? then initialItem.value.channels else [];
    if initial == [] && suggestion != [] then
      match NormalizeChannelInput(suggestion, parse)
      case Ok(Some(c)) => [c]
      case _ => []
    else initial
  }

  /** The list `updateEntry` saves: the first record with the entry's id replaced by it. */
  function Replaced(items: seq<CopyPasta>, entry: CopyPasta): (r: seq<CopyPasta>)
    requires FindIndexById(items, entry.id) != -1
    ensures |r| == |items|
    ensures var i := FindIndexById(items, entry.id);
            r[i] == entry && forall k :: 0 <= k < |items| && k != i ==> r[k] == items[k]
  {
    items[FindIndexById(items, entry.id) := entry]
  }

  class AddDialog {
    const store: LocalStore
    const initialItem: Option<CopyPasta>
    const tagField: TagInput
    const channelField: ChannelInput
    /** The message textarea. */
    var content: string
    /** The error line under the form. */
    var error: string
    var isSubmitting: bool
    /** Whether the overlay is in the page with its listeners attached. */
    var attached: bool
    /** How many times `onClose` was called. */
    var closeCalls: nat
    /** How many records this dialog instance has written to the store. */
    var saves: nat

    /** Only the submission that sets `isSubmitting` writes, and a closed
        dialog has reported its close. */
    predicate Valid()
      reads this
    {
      saves == (if isSubmitting then 1 else 0)
      && (!attached ==> closeCalls >= 1)
    }

    /** `open(options)`: the form filled from the edited record, or empty. */
    constructor(store: LocalStore, initialItem: Option<CopyPasta>, suggestion: string, parse: UrlParser)
      ensures this.store == store && this.initialItem == initialItem
      ensures content == (if initialItem.Some? then initialItem.value.content else [])
      ensures tagField.tags == (if initialItem.Some? then initialItem.value.tags else [])
      ensures channelField.channels == InitialChannels(initialItem, suggestion, parse)
      ensures fresh(tagField) && fresh(channelField)
      ensures error == [] && !isSubmitting && attached && closeCalls == 0 && saves == 0
      ensures Valid()
    {
      this.store := store;
      this.initialItem := initialItem;
      content := if initialItem.Some? then initialItem.value.content else [];
      tagField := new TagInput(if initialItem.Some? then initialItem.value.tags else []);
      channelField := new ChannelInput(InitialChannels(initialItem, suggestion, parse));
      error := [];
      isSubmitting := false;
      attached := true;
      closeCalls := 0;
      saves := 0;
    }

    /** `close`: detaches the overlay and calls `onClose`. */
    method Close()
      modifies this
      ensures !attached && closeCalls == old(closeCalls) + 1
      ensures content == old(content) && error == old(error) && isSubmitting == old(isSubmitting)
      ensures saves == old(saves)
      ensures old(Valid()) ==> Valid()
    {
      attached := false;
      closeCalls := closeCalls + 1;
    }

    /** A pointer-down on the backdrop itself closes; one inside the dialog does nothing. */
    method OnOverlayClick(onBackdrop: bool)
      requires attached
      modifies this
      ensures attached == !onBackdrop
      ensures closeCalls == old(closeCalls) + (if onBackdrop then 1 else 0)
      ensures saves == old(saves) && isSubmitting == old(isSubmitting)
      ensures old(Valid()) ==> Valid()
    {
      if onBackdrop {
        Close();
      }
    }

    /** The capturing key handler: only Escape closes. */
    method OnKeyDown(key: string)
      requires attached
      modifies this
      ensures attached == (key != "Escape")
      ensures closeCalls == old(closeCalls) + (if key == "Escape" then 1 else 0)
      ensures saves == old(saves) && isSubmitting == old(isSubmitting)
      ensures old(Valid()) ==> Valid()
    {
      if key != "Escape" {
        return;
      }
      Close();
    }

    method OnCancel()
      requires attached
      modifies this
      ensures !attached && closeCalls == old(closeCalls) + 1
      ensures saves == old(saves) && isSubmitting == old(isSubmitting)
      ensures old(Valid()) ==> Valid()
    {
      Close();
    }

    /** The submit handler. A second submission and a blank message save
        nothing; otherwise the entry is built from the fields, saved once
        (an edit through `updateEntry`, an addition through `add`), handed
        to `onSaved` and the dialog is closed. */
    method Submit() returns (saved: Option<CopyPasta>)
      requires attached && Valid()
      modifies this, store
      ensures Valid() && saves <= 1
      ensures old(isSubmitting) ==> saved.None? && error == [] && attached && saves == old(saves)
                                    && store.storage == old(store.storage)
      ensures !old(isSubmitting) && AllWhite(old(content)) ==>
                saved.None? && error == MessageRequired && attached && !isSubmitting
                && store.storage == old(store.storage)
      ensures !old(isSubmitting) && !AllWhite(old(content)) ==>
                && isSubmitting && saves == 1 && !attached && closeCalls == old(closeCalls) + 1
                && var entry := old(EntryOf(Trim(content)));
                   saved == Some(SavedEntry(initialItem.Some?, old(store.storage), entry))
                   && store.storage == SavedStorage(initialItem.Some?, old(store.storage), entry)
    {
      error := [];
      if isSubmitting {
        return None;
      }
      var message := Trim(content);
      TrimEmptyIffBlank(content);
      if message == [] {
        error := MessageRequired;
        return None;
      }
      var channels := channelField.GetChannels();
      var tags := tagField.GetTags();
      var entry := CopyPasta(if initialItem.Some? then initialItem.value.id else 0, message, tags, channels);
      saved := Commit(entry);
    }

    /** The entry a submission builds from the message and the two fields. */
    function EntryOf(message: string): CopyPasta
      reads this, tagField, channelField
    {
      CopyPasta(if initialItem.Some? then initialItem.value.id else 0, message, tagField.tags, channelField.channels)
    }

    /** The non-blank path of the submit handler: the entry is saved once and
        the dialog closed. */
    method Commit(entry: CopyPasta) returns (saved: Option<CopyPasta>)
      requires saves == 0 && !isSubmitting
      modifies this, store
      ensures isSubmitting && saves == 1 && !attached && closeCalls == old(closeCalls) + 1
      ensures error == old(error) && content == old(content)
      ensures saved == Some(SavedEntry(initialItem.Some?, old(store.storage), entry))
      ensures store.storage == SavedStorage(initialItem.Some?, old(store.storage), entry)
    {
      ghost var before := store.storage;
      isSubmitting := true;
      saves := saves + 1;
      var stored := SaveEntry(entry);
      ghost var after := store.storage;
      assert stored == SavedEntry(initialItem.Some?, before, entry);
      assert after == SavedStorage(initialItem.Some?, before, entry);
      saved := Some(stored);
      Close();
      assert store.storage == after;
    }

    /** The save step of the submit handler: an edit goes through
        `updateEntry`, an addition through `add`. */
    method SaveEntry(entry: CopyPasta) returns (stored: CopyPasta)
      modifies store
      ensures stored == SavedEntry(initialItem.Some?, old(store.storage), entry)
      ensures store.storage == SavedStorage(initialItem.Some?, old(store.storage), entry)
    {
      if initialItem.Some? {
        UpdateEntry(entry);
        stored := entry;
      } else {
        stored := store.Add(entry);
      }
    }

    /** `updateEntry`: the record with the entry's id is replaced in place
        and the whole list saved; an entry whose id is gone is added instead. */
    method UpdateEntry(entry: CopyPasta)
      modifies store
      ensures store.storage == UpdatedStorage(Read(old(store.storage)), entry)
    {
      var items := store.GetAll();
      var index := FindIndexById(items, entry.id);
      if index == -1 {
        ReadHealed(old(store.storage));
        var _ := store.Add(entry);
        return;
      }
      items := items[index := entry];
      store.Save(items);
    }
  }

  /** The record a submission hands to `onSaved`, for the stored array it
      started from: an edited entry as built, an added one as `add` stores it. */
  function SavedEntry(editing: bool, storage: seq<RawRecord>, entry: CopyPasta): (r: CopyPasta)
    ensures editing ==> r == entry
    ensures !editing ==> FindIndexById(Read(storage), r.id) == -1
  {
    if editing then entry else Added(Read(storage), entry)
  }

  /** The stored array a submission leaves behind. */
  function SavedStorage(editing: bool, storage: seq<RawRecord>, entry: CopyPasta): seq<RawRecord> {
    var items := Read(storage);
    if editing then UpdatedStorage(items, entry) else EncodeAll(items + [Added(items, entry)])
  }

  /** An edit keeps the entry and saves it through `updateEntry`; an addition
      stores it under a fresh id after the list it read back. */
  lemma SavedCases(editing: bool, storage: seq<RawRecord>, entry: CopyPasta)
    ensures var items := Read(storage);
            && (editing ==> SavedEntry(editing, storage, entry) == entry
                            && SavedStorage(editing, storage, entry) == UpdatedStorage(items, entry))
            && (!editing ==> SavedEntry(editing, storage, entry) == Added(items, entry)
                             && FindIndexById(items, SavedEntry(editing, storage, entry).id) == -1
                             && SavedStorage(editing, storage, entry)
                                == EncodeAll(items + [SavedEntry(editing, storage, entry)]))
  {
  }

  /** The stored array `updateEntry` leaves behind for the list it read. */
  function UpdatedStorage(items: seq<CopyPasta>, entry: CopyPasta): (r: seq<RawRecord>)
    ensures |r| == if FindIndexById(items, entry.id) == -1 then |items| + 1 else |items|
  {
    if FindIndexById(items, entry.id) == -1 then EncodeAll(items + [Added(items, entry)])
    else EncodeAll(Normalize(EncodeAll(Replaced(items, entry))).data)
  }

  /** After an update of a record that is present, reading the store gives the
      list with that record replaced, normalised. */
  lemma UpdatedStorageRead(items: seq<CopyPasta>, entry: CopyPasta)
    ensures FindIndexById(items, entry.id) != -1 ==>
              Read(UpdatedStorage(items, entry)) == Normalize(EncodeAll(Replaced(items, entry))).data
  {
    if FindIndexById(items, entry.id) != -1 {
      SaveThenRead(Replaced(items, entry));
    }
  }
}
