/**
 * The settings store of the mini-app: a server snapshot and an editable
 * draft, the patch of fields that differ between them, and the guards that
 * decide when a patch is sent.
 */
module SettingsStore {
  import opened Common
  import AppSettings
  import I18n

  /** `SettingsDto`; the locale is kept as a string because a stored value need not be supported. */
  datatype Settings = Settings(
    userId: string, themeMode: AppSettings.Theme, primary: string, locale: string, currency: string,
    favoriteFamilyId: Option<string>, createdAt: int, updatedAt: int)

  /** `UpdateSettingsDto`: each field is present only when it is to change. */
  datatype SettingsPatch = SettingsPatch(
    themeMode: Option<AppSettings.Theme>, primary: Option<string>, locale: Option<string>, currency: Option<string>,
    favoriteFamilyId: Option<Option<string>>)

  const NoChange := SettingsPatch(None, None, None, None, None)

  const DefaultPrimary := "#2ea6ff"
  const DefaultCurrency := "RUB"

  /** The draft made when there is nothing else: the default settings in the given locale. */
  function DefaultSettings(locale: string, now: int): Settings {
    Settings("", AppSettings.Auto, DefaultPrimary, locale, DefaultCurrency, None, now, now)
  }

  /** `diffSettings`: the four user-editable fields on which `next` differs from `prev`, with `next`'s values. */
  function DiffSettings(next: Settings, prev: Settings): (p: SettingsPatch)
    ensures p.themeMode.Some? <==> next.themeMode != prev.themeMode
    ensures p.primary.Some? <==> next.primary != prev.primary
    ensures p.locale.Some? <==> next.locale != prev.locale
    ensures p.currency.Some? <==> next.currency != prev.currency
    ensures p.favoriteFamilyId.None?
  {
    SettingsPatch(
      if next.themeMode != prev.themeMode then Some(next.themeMode) else None,
      if next.primary != prev.primary then Some(next.primary) else None,
      if next.locale != prev.locale then Some(next.locale) else None,
      if next.currency != prev.currency then Some(next.currency) else None,
      None)
  }

  /** `{ ...s, ...patch }`: the fields present in the patch replace those of `s`. */
  function ApplyPatch(s: Settings, p: SettingsPatch): Settings {
    s.(themeMode := p.themeMode.GetOr(s.themeMode),
       primary := p.primary.GetOr(s.primary),
       locale := p.locale.GetOr(s.locale),
       currency := p.currency.GetOr(s.currency),
       favoriteFamilyId := p.favoriteFamilyId.GetOr(s.favoriteFamilyId))
  }

  /** Applying the difference to the older settings gives the newer ones on the four edited fields. */
  lemma DiffThenApply(next: Settings, prev: Settings)
    ensures ApplyPatch(prev, DiffSettings(next, prev))
         == prev.(themeMode := next.themeMode, primary := next.primary, locale := next.locale, currency := next.currency)
  {
  }

  /** The difference is empty exactly when the four fields agree; in particular a snapshot never differs from itself. */
  lemma DiffEmpty(next: Settings, prev: Settings)
    ensures DiffSettings(next, prev) == NoChange
        <==> next.themeMode == prev.themeMode && next.primary == prev.primary && next.locale == prev.locale && next.currency == prev.currency
    ensures DiffSettings(prev, prev) == NoChange
  {
  }

  /** A patch changes the fields it carries and keeps every other one. */
  lemma ApplyPatchKeepsOthers(s: Settings, p: SettingsPatch)
    ensures var t := ApplyPatch(s, p);
      && t.userId == s.userId && t.createdAt == s.createdAt && t.updatedAt == s.updatedAt
      && (p.primary.Some? ==> t.primary == p.primary.value) && (p.primary.None? ==> t.primary == s.primary)
      && (p.locale.Some? ==> t.locale == p.locale.value) && (p.locale.None? ==> t.locale == s.locale)
  {
  }

  /** Lines 86-89: the stored locale, or the one Telegram's language code gives, if it is supported; else EN. */
  function HydratedLocale(stored: Option<string>, telegramLanguageCode: Option<string>): (locale: string)
    ensures locale in I18n.AvailableCodes
    ensures stored.Some? && stored.value in I18n.AvailableCodes ==> locale == stored.value
    ensures stored.Some? && stored.value !in I18n.AvailableCodes ==> locale == "EN"
    ensures stored.None? ==> locale == I18n.LocaleName(I18n.LocaleFromLanguageCode(telegramLanguageCode))
  {
    var candidate := stored.GetOr(I18n.LocaleName(I18n.LocaleFromLanguageCode(telegramLanguageCode)));
    if candidate in I18n.AvailableCodes then candidate else I18n.LocaleName(I18n.EN)
  }

  /** The user record the store loads its snapshot from, when there is one. */
  datatype UserSnapshot = UserSnapshot(id: string, settings: Option<Settings>)

  /** How loading the user ended: a user (or none, without Telegram data), or an error with its message. */
  datatype LoadOutcome = Loaded(user: Option<UserSnapshot>) | LoadFailed(message: Option<string>)

  /** How the save request ended. */
  datatype SaveOutcome = Saved(next: Settings) | SaveFailed(message: Option<string>)

  /** The snapshot `hydrate` builds from a loaded user; a favorite family is never carried over. */
  function Snapshot(user: Option<UserSnapshot>, telegramLanguageCode: Option<string>, now: int): (s: Settings)
    ensures s.favoriteFamilyId.None?
    ensures s.locale in I18n.AvailableCodes
  {
    var data := if user.Some? then user.value.settings else None;
    var locale := HydratedLocale(if data.Some? then Some(data.value.locale) else None, telegramLanguageCode);
    if data.Some? then
      Settings(user.value.id, data.value.themeMode, data.value.primary, locale, data.value.currency, None,
               data.value.createdAt, data.value.updatedAt)
    else
      Settings(if user.Some? then user.value.id else "", AppSettings.Auto, DefaultPrimary, locale, DefaultCurrency, None, now, now)
  }

  const MissingInitData := "Unable to save settings: missing Telegram initData"

  class Store {
    var hydrated: bool
    var isLoading: bool
    var error: Option<string>
    var server: Option<Settings>
    var draft: Option<Settings>
    var saving: bool

    constructor()
      ensures !hydrated && !isLoading && error.None? && server.None? && draft.None? && !saving
    {
      hydrated, isLoading, error, server, draft, saving := false, false, None, None, None, false;
    }

    /** The patch a save would send, when there is both a snapshot and a draft. */
    function Pending(): Option<SettingsPatch>
      reads this
    {
      if server.Some? && draft.Some? then Some(DiffSettings(draft.value, server.value)) else None
    }

    /**
     * Lines 75-124. Nothing happens while hydrated or loading. A loaded user
     * gives both the snapshot and the draft; a failed load leaves no snapshot,
     * records the error and drafts the defaults in the Telegram locale.
     */
    method Hydrate(telegramLanguageCode: Option<string>, outcome: LoadOutcome, now: int)
      modifies this
      ensures old(hydrated || isLoading) ==> unchanged(this)
      ensures !old(hydrated || isLoading) && outcome.Loaded? ==>
        var s := Snapshot(outcome.user, telegramLanguageCode, now);
        server == Some(s) && draft == Some(s) && hydrated && !isLoading && error.None? && saving == old(saving)
      ensures !old(hydrated || isLoading) && outcome.LoadFailed? ==>
        && server.None? && hydrated && !isLoading && saving == old(saving)
        && draft == Some(DefaultSettings(I18n.LocaleName(I18n.LocaleFromLanguageCode(telegramLanguageCode)), now))
        && error == Some(outcome.message.GetOr("Failed to load settings"))
    {
      if hydrated || isLoading {
        return;
      }
      isLoading := true;
      error := None;
      match outcome {
        case Loaded(user) =>
          var settings := Snapshot(user, telegramLanguageCode, now);
          server := Some(settings);
          draft := Some(settings);
          hydrated := true;
        case LoadFailed(message) =>
          error := Some(message.GetOr("Failed to load settings"));
          var fallbackLocale := I18n.LocaleName(I18n.LocaleFromLanguageCode(telegramLanguageCode));
          server := None;
          draft := Some(DefaultSettings(fallbackLocale, now));
          hydrated := true;
      }
      isLoading := false;
    }

    /**
     * Lines 151-160, without the timer: whether a save is scheduled. It is
     * only when there is a snapshot, a draft, and a difference between them.
     */
    method ScheduleSave() returns (scheduled: bool)
      ensures scheduled <==> Pending().Some? && Pending().value != NoChange
    {
      if server.None? || draft.None? {
        return false;
      }
      var patch := DiffSettings(draft.value, server.value);
      if patch == NoChange {
        return false;
      }
      return true;
    }

    /**
     * Lines 126-149. Returns the patch sent, if any. Nothing is sent without a
     * snapshot and a draft, or without a difference, or without Telegram init
     * data (which records an error). After a successful save the snapshot and
     * the draft are both the returned settings.
     */
    method FlushSave(hasInitData: bool, outcome: SaveOutcome) returns (sent: Option<SettingsPatch>)
      modifies this
      ensures sent.Some? <==> old(Pending()).Some? && old(Pending()).value != NoChange && hasInitData
      ensures sent.Some? ==> sent == old(Pending())
      ensures (old(Pending()).None? || old(Pending()).value == NoChange) ==> unchanged(this)
      ensures old(Pending()).Some? && old(Pending()).value != NoChange && !hasInitData ==>
        error == Some(MissingInitData) && server == old(server) && draft == old(draft) && saving == old(saving)
      ensures sent.Some? && outcome.Saved? ==> server == Some(outcome.next) && draft == Some(outcome.next) && error == old(error)
      ensures sent.Some? && outcome.SaveFailed? ==>
        server == old(server) && draft == old(draft) && error == Some(outcome.message.GetOr("Failed to save settings"))
      ensures sent.Some? ==> !saving
      ensures hydrated == old(hydrated) && isLoading == old(isLoading)
    {
      if server.None? || draft.None? {
        return None;
      }
      var patch := DiffSettings(draft.value, server.value);
      if patch == NoChange {
        return None;
      }
      if !hasInitData {
        error := Some(MissingInitData);
        return None;
      }
      saving := true;
      sent := Some(patch);
      match outcome {
        case Saved(next) =>
          server := Some(next);
          draft := Some(next);
        case SaveFailed(message) =>
          error := Some(message.GetOr("Failed to save settings"));
      }
      saving := false;
    }

    /**
     * Lines 162-181: the patched fields overwrite the draft, which is first
     * made from the defaults when there is none; then a save is scheduled.
     */
    method SetDraft(patch: SettingsPatch, now: int) returns (scheduled: bool)
      modifies this
      ensures draft == Some(ApplyPatch(if old(draft).Some? then old(draft).value else DefaultSettings("EN", now), patch))
      ensures server == old(server) && hydrated == old(hydrated) && isLoading == old(isLoading)
      ensures error == old(error) && saving == old(saving)
      ensures scheduled <==> Pending().Some? && Pending().value != NoChange
    {
      if draft.None? {
        draft := Some(DefaultSettings(I18n.LocaleName(I18n.EN), now));
      }
      draft := Some(ApplyPatch(draft.value, patch));
      scheduled := ScheduleSave();
    }
  }
}
