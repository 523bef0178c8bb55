/** The two user settings, kept under one key both in the page's
    `localStorage` and in the extension's own storage. Reading validates each
    field on its own; anything unusable falls back to the defaults. */
module AppSettings {
  import opened Values

  datatype Settings = Settings(showToggleIcon: bool, enableDuplicateBypass: bool)

  /** `DEFAULT_SETTINGS`. */
  const Defaults := Settings(true, false)

  /** The two fields read from a stored settings value; a field that is
      absent, or a stored value that is not an object, reads `Undefined`. */
  datatype RawSettings = RawSettings(showToggleIcon: Value, enableDuplicateBypass: Value)

  /** What a store holds under the settings key: nothing (or a falsy value),
      something that cannot be read back (a read that throws, text that is not
      JSON, or `null`), or a stored value. */
  datatype Slot = Missing | Unreadable | Stored(raw: RawSettings)

  /** Both stores: `localStorage` holds JSON text, extension storage the object. */
  datatype Stores = Stores(local: Slot, extension: Slot)

  /** The field-wise check: a boolean is kept, anything else becomes that
      field's default. */
  function Validate(raw: RawSettings): (r: Settings)
    ensures raw.showToggleIcon.Bool? ==> r.showToggleIcon == raw.showToggleIcon.b
    ensures !raw.showToggleIcon.Bool? ==> r.showToggleIcon == Defaults.showToggleIcon
    ensures raw.enableDuplicateBypass.Bool? ==> r.enableDuplicateBypass == raw.enableDuplicateBypass.b
    ensures !raw.enableDuplicateBypass.Bool? ==> r.enableDuplicateBypass == Defaults.enableDuplicateBypass
  {
    Settings(
      if raw.showToggleIcon.Bool? then raw.showToggleIcon.b else true,
      if raw.enableDuplicateBypass.Bool? then raw.enableDuplicateBypass.b else false)
  }

  /** The settings object as it reads back after being stored. */
  function Encode(s: Settings): (r: RawSettings)
    ensures r.showToggleIcon.Bool? && r.enableDuplicateBypass.Bool?
  {
    RawSettings(Bool(s.showToggleIcon), Bool(s.enableDuplicateBypass))
  }

  /** Each field is decided by its own stored value alone. */
  lemma ValidateFieldwise(a: RawSettings, b: RawSettings)
    ensures a.showToggleIcon == b.showToggleIcon ==> Validate(a).showToggleIcon == Validate(b).showToggleIcon
    ensures a.enableDuplicateBypass == b.enableDuplicateBypass
            ==> Validate(a).enableDuplicateBypass == Validate(b).enableDuplicateBypass
  {
  }

  /** Storing settings and validating them again changes nothing. */
  lemma ValidateEncode(s: Settings)
    ensures Validate(Encode(s)) == s
  {
  }

  /** `loadSettings`: the validated stored value, or the defaults when the
      key is missing or cannot be read. */
  function Load(local: Slot): (r: Settings)
    ensures local.Stored? ==> r == Validate(local.raw)
    ensures !local.Stored? ==> r == Defaults
  {
    match local
    case Stored(raw) => Validate(raw)
    case _ => Defaults
  }

  /** A stored value whose fields are not booleans loads as the defaults. */
  lemma LoadNonBooleans(raw: RawSettings)
    requires !raw.showToggleIcon.Bool? && !raw.enableDuplicateBypass.Bool?
    ensures Load(Stored(raw)) == Defaults
  {
  }

  /** `saveSettings`: the same object goes to both stores; a store whose write
      fails keeps what it had, and the failure is swallowed. */
  function Save(stores: Stores, s: Settings, localWorks: bool, extensionWorks: bool): (r: Stores)
    ensures r.local == (if localWorks then Stored(Encode(s)) else stores.local)
    ensures r.extension == (if extensionWorks then Stored(Encode(s)) else stores.extension)
  {
    Stores(
      if localWorks then Stored(Encode(s)) else stores.local,
      if extensionWorks then Stored(Encode(s)) else stores.extension)
  }

  /** The result of `loadSettingsAsync` and the stores it leaves behind. */
  datatype AsyncLoad = AsyncLoad(settings: Settings, stores: Stores)

  /** `loadSettingsAsync`: the validated value from extension storage, copied
      to `localStorage` when that write works; the defaults, with nothing
      written, when extension storage has no usable value. */
  function LoadAsync(stores: Stores, localWorks: bool): (r: AsyncLoad)
    ensures r.stores.extension == stores.extension
    ensures stores.extension.Stored? ==> r.settings == Validate(stores.extension.raw)
    ensures !stores.extension.Stored? ==> r == AsyncLoad(Defaults, stores)
    ensures stores.extension.Stored? && localWorks ==> r.stores.local == Stored(Encode(r.settings))
    ensures !localWorks ==> r.stores == stores
  {
    match stores.extension
    case Stored(raw) =>
      var settings := Validate(raw);
      AsyncLoad(settings, if localWorks then stores.(local := Stored(Encode(settings))) else stores)
    case _ => AsyncLoad(Defaults, stores)
  }

  /** What was saved is what loads back, from either store whose write worked. */
  lemma SaveThenLoad(stores: Stores, s: Settings, extensionWorks: bool)
    ensures Load(Save(stores, s, true, extensionWorks).local) == s
  {
    ValidateEncode(s);
  }

  lemma SaveThenLoadAsync(stores: Stores, s: Settings, localWorks: bool, localWorksLater: bool)
    ensures LoadAsync(Save(stores, s, localWorks, true), localWorksLater).settings == s
  {
    ValidateEncode(s);
  }

  /** After an asynchronous load has copied its value over, the synchronous
      load agrees with it. */
  lemma LoadAsyncSyncsLocal(stores: Stores)
    requires stores.extension.Stored?
    ensures var r := LoadAsync(stores, true);
            Load(r.stores.local) == r.settings
  {
    ValidateEncode(LoadAsync(stores, true).settings);
  }

  /** A save whose writes both fail leaves both stores as they were. */
  lemma SaveFailureKeeps(stores: Stores, s: Settings)
    ensures Save(stores, s, false, false) == stores
  {
  }
}
