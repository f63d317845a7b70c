/** lib/useTranslation.ts: the interface-string translations a user sees,
    served from English, a prebuilt table, a versioned cache in local
    storage, or a batch translation request, in that order. */
module UiTranslation {
  import opened Wrappers
  import opened Text

  const CachePrefix := "translation_cache_"
  const VersionKey := "translation_cache_version"
  const UiStringsVersion := "1.0.1"
  const NoApiKey := "No API key available for translation"
  const EnglishReturned := "Translation returned English text - API may have failed"
  const TranslationFailed := "Translation failed"

  /** A dictionary from interface-string key to text. */
  type Translations = map<string, string>

  /** `JSON.stringify` and `JSON.parse` for a dictionary; parsing answers
      nothing when it throws or yields something other than a dictionary. */
  datatype Codec = Codec(encode: Translations -> string, decode: string -> Option<Translations>)

  /** What the cache relies on: a stored dictionary reads back as itself,
      and its text is never empty (a JSON object is at least `{}`). */
  ghost predicate JsonLike(codec: Codec) {
    forall t :: codec.decode(codec.encode(t)) == Some(t) && codec.encode(t) != ""
  }

  /** `UI_STRINGS`: the English texts and their keys in declaration order. */
  datatype UiStrings = UiStrings(keys: seq<string>, english: Translations)

  ghost predicate WellFormed(ui: UiStrings) {
    && (forall i, j :: 0 <= i < j < |ui.keys| ==> ui.keys[i] != ui.keys[j])
    && (forall k :: k in ui.english <==> k in ui.keys)
  }

  /** `Object.keys(t).some(key => t[key] !== UI_STRINGS[key])`. */
  predicate Differs(t: Translations, english: Translations) {
    exists k :: k in t && (k !in english || t[k] != english[k])
  }

  // ---------------------------------------------------------------------
  // Local storage and the three cache helpers

  predicate IsCacheKey(key: string) {
    StartsWith(key, CachePrefix) || key == VersionKey
  }

  /** The version key is itself a cache key by its prefix. */
  lemma VersionKeyHasPrefix()
    ensures StartsWith(VersionKey, CachePrefix) && VersionKey == CachePrefix + "version"
  {
  }

  /** The storage `clearAllCaches` leaves: every cache key gone, every other
      item as it was. */
  function ClearedItems(items: map<string, string>): (r: map<string, string>)
    ensures forall k :: k in r <==> k in items && !IsCacheKey(k)
    ensures forall k :: k in r ==> r[k] == items[k]
  {
    map k | k in items && !IsCacheKey(k) :: items[k]
  }

  lemma ClearedItemsIdempotent(items: map<string, string>)
    ensures ClearedItems(ClearedItems(items)) == ClearedItems(items)
  {
  }

  predicate VersionCurrent(items: map<string, string>) {
    VersionKey in items && items[VersionKey] == UiStringsVersion
  }

  /** The storage after `getCachedTranslations`: cleared on a stale or
      missing version, untouched otherwise. */
  function AfterLookup(items: map<string, string>): map<string, string> {
    if VersionCurrent(items) then items else ClearedItems(items)
  }

  /** What `getCachedTranslations` answers: nothing on a stale or missing
      version, otherwise the parsed entry of the language when it is there
      and non-empty. */
  function CachedEntry(items: map<string, string>, langCode: string, codec: Codec): Option<Translations> {
    var key := CachePrefix + langCode;
    if !VersionCurrent(items) then None
    else if key in items && items[key] != "" then codec.decode(items[key])
    else None
  }

  /** The storage after `saveToCache`. */
  function SavedItems(items: map<string, string>, langCode: string, t: Translations, codec: Codec): map<string, string> {
    items[VersionKey := UiStringsVersion][CachePrefix + langCode := codec.encode(t)]
  }

  /** `localStorage`, as far as the cache uses it. */
  class Storage {
    var items: map<string, string>

    constructor(initial: map<string, string>)
      ensures items == initial
    {
      items := initial;
    }

    method RemoveItem(key: string)
      modifies this
      ensures items == old(items) - {key}
    {
      items := items - {key};
    }

    /** `clearAllCaches`: walk the keys present at the start and remove each
        cache key. */
    method ClearAllCaches()
      modifies this
      ensures items == ClearedItems(old(items))
    {
      var keys := items.Keys;
      while keys != {}
        invariant keys <= old(items).Keys
        invariant forall k :: k in items <==> k in old(items) && (k in keys || !IsCacheKey(k))
        invariant forall k :: k in items ==> items[k] == old(items)[k]
        decreases keys
      {
        var key :| key in keys;
        if StartsWith(key, CachePrefix) || key == VersionKey {
          items := items - {key};
        }
        keys := keys - {key};
      }
    }

    /** `getCachedTranslations`. */
    method GetCachedTranslations(langCode: string, codec: Codec) returns (cached: Option<Translations>)
      modifies this
      ensures cached == CachedEntry(old(items), langCode, codec)
      ensures items == AfterLookup(old(items))
    {
      var cachedVersion := if VersionKey in items then Some(items[VersionKey]) else None;
      if cachedVersion != Some(UiStringsVersion) {
        ClearAllCaches();
        return None;
      }
      var key := CachePrefix + langCode;
      if key in items && items[key] != "" {
        cached := codec.decode(items[key]);
      } else {
        cached := None;
      }
    }

    /** `saveToCache`: the current version, then the language's entry. */
    method SaveToCache(langCode: string, t: Translations, codec: Codec)
      modifies this
      ensures items == SavedItems(old(items), langCode, t, codec)
    {
      items := items[VersionKey := UiStringsVersion];
      items := items[CachePrefix + langCode := codec.encode(t)];
    }
  }

  /** A saved entry reads back as itself, and the lookup leaves the storage
      alone. The language `version` is excluded: its entry key is the version
      key, so saving it overwrites the version. */
  lemma SaveThenLookup(items: map<string, string>, langCode: string, t: Translations, codec: Codec)
    requires JsonLike(codec)
    requires langCode != "version"
    ensures CachedEntry(SavedItems(items, langCode, t, codec), langCode, codec) == Some(t)
    ensures AfterLookup(SavedItems(items, langCode, t, codec)) == SavedItems(items, langCode, t, codec)
  {
    var key := CachePrefix + langCode;
    assert key[|CachePrefix|..] == langCode;
    assert VersionKey[|CachePrefix|..] == "version";
    assert key != VersionKey;
    assert codec.decode(codec.encode(t)) == Some(t) && codec.encode(t) != "";
  }

  /** A lookup under a stale or missing version clears every cache key, so
      every later lookup, for any language, answers nothing as well. */
  lemma StaleVersionClearsEverything(items: map<string, string>, langCode: string, other: string, codec: Codec)
    requires !VersionCurrent(items)
    ensures CachedEntry(items, langCode, codec) == None
    ensures CachedEntry(AfterLookup(items), other, codec) == None
    ensures forall k :: k in AfterLookup(items) ==> !IsCacheKey(k)
  {
    assert IsCacheKey(VersionKey);
  }

  // ---------------------------------------------------------------------
  // translateStrings

  /** How the batch request ends: the parsed translations (entries may be
      missing or null), a response with an error status and its body, or an
      exception (an `Error`'s message, or nothing for another value). */
  datatype BatchReply =
    | Translated(translations: seq<Option<string>>)
    | ErrorStatus(status: nat, body: string)
    | Thrown(message: Option<string>)

  /** `data.translations[index] || UI_STRINGS[key]`. */
  function Pick(data: seq<Option<string>>, index: nat, fallback: string): (text: string)
    ensures text == fallback || (index < |data| && data[index] == Some(text) && text != "")
  {
    if index < |data| && data[index].Some? && data[index].value != "" then data[index].value else fallback
  }

  /** The dictionary after the first `n` keys have been filled in. */
  function Filled(ui: UiStrings, data: seq<Option<string>>, n: nat): Translations
    requires WellFormed(ui) && n <= |ui.keys|
  {
    if n == 0 then map[]
    else Filled(ui, data, n - 1)[ui.keys[n - 1] := Pick(data, n - 1, ui.english[ui.keys[n - 1]])]
  }

  /** The first `n` keys are filled in, and no other. */
  lemma {:induction false} FilledKeys(ui: UiStrings, data: seq<Option<string>>, n: nat)
    requires WellFormed(ui) && n <= |ui.keys|
    ensures Filled(ui, data, n).Keys == set k | k in ui.keys[..n]
    decreases n
  {
    if n > 0 {
      FilledKeys(ui, data, n - 1);
      assert ui.keys[..n] == ui.keys[..n - 1] + [ui.keys[n - 1]];
    }
  }

  /** Result `i` lands under key `i`, falling back to the English text. */
  lemma {:induction false} FilledValues(ui: UiStrings, data: seq<Option<string>>, n: nat, i: nat)
    requires WellFormed(ui) && i < n <= |ui.keys|
    ensures ui.keys[i] in Filled(ui, data, n)
    ensures Filled(ui, data, n)[ui.keys[i]] == Pick(data, i, ui.english[ui.keys[i]])
    decreases n
  {
    if i < n - 1 {
      FilledValues(ui, data, n - 1, i);
      assert ui.keys[i] != ui.keys[n - 1];
    }
  }

  /** The decimal digits of a status code, as a template literal prints it. */
  function NatToString(n: nat): (s: string)
    ensures |s| >= 1
    ensures forall i :: 0 <= i < |s| ==> '0' <= s[i] <= '9'
    decreases n
  {
    if n < 10 then [(48 + n) as char] else NatToString(n / 10) + [(48 + n % 10) as char]
  }

  function TranslateResult(ui: UiStrings, reply: BatchReply): Result<Translations, Option<string>>
    requires WellFormed(ui)
  {
    match reply
    case Translated(data) => Ok(Filled(ui, data, |ui.keys|))
    case ErrorStatus(status, body) => Err(Some("Translation failed: " + NatToString(status) + " " + body))
    case Thrown(message) => Err(message)
  }

  /** `translateStrings`: one batch request, then a pass over the keys. */
  method TranslateStrings(ui: UiStrings, reply: BatchReply) returns (r: Result<Translations, Option<string>>)
    requires WellFormed(ui)
    ensures r == TranslateResult(ui, reply)
  {
    match reply {
      case Translated(data) =>
        var translations: Translations := map[];
        for index := 0 to |ui.keys|
          invariant translations == Filled(ui, data, index)
        {
          var key := ui.keys[index];
          translations := translations[key := Pick(data, index, ui.english[key])];
        }
        return Ok(translations);
      case ErrorStatus(status, body) =>
        return Err(Some("Translation failed: " + NatToString(status) + " " + body));
      case Thrown(message) =>
        return Err(message);
    }
  }

  /** A successful reply fills exactly the English keys, key `i` with result
      `i` or its English text. */
  lemma TranslatedKeys(ui: UiStrings, data: seq<Option<string>>)
    requires WellFormed(ui)
    ensures var t := TranslateResult(ui, Translated(data)).value;
      && t.Keys == ui.english.Keys
      && |t.Keys| == |ui.keys|
      && forall i :: 0 <= i < |ui.keys| ==> t[ui.keys[i]] == Pick(data, i, ui.english[ui.keys[i]])
  {
    var t := Filled(ui, data, |ui.keys|);
    FilledKeys(ui, data, |ui.keys|);
    assert ui.keys[..|ui.keys|] == ui.keys;
    DistinctCard(ui.keys);
    forall i | 0 <= i < |ui.keys|
      ensures t[ui.keys[i]] == Pick(data, i, ui.english[ui.keys[i]])
    {
      FilledValues(ui, data, |ui.keys|, i);
    }
  }

  /** A sequence without repeats has as many distinct elements as entries. */
  lemma {:induction false} DistinctCard(keys: seq<string>)
    requires forall i, j :: 0 <= i < j < |keys| ==> keys[i] != keys[j]
    ensures |set k | k in keys| == |keys|
    decreases |keys|
  {
    if keys != [] {
      var init := keys[..|keys| - 1];
      DistinctCard(init);
      assert (set k | k in keys) == (set k | k in init) + {keys[|keys| - 1]};
      assert keys[|keys| - 1] !in init;
    }
  }

  // ---------------------------------------------------------------------
  // loadTranslations

  datatype TranslationState = TranslationState(translations: Translations, isLoading: bool, error: Option<string>)

  function Ready(t: Translations): TranslationState {
    TranslationState(t, false, None)
  }

  /** The cache check of `loadTranslations`: the entry is served only when
      it has as many keys as the English strings and some text differs
      from English. */
  predicate Accepted(items: map<string, string>, langCode: string, ui: UiStrings, codec: Codec) {
    var cached := CachedEntry(items, langCode, codec);
    cached.Some? && |cached.value.Keys| == |ui.keys| && Differs(cached.value, ui.english)
  }

  /** The storage when the cache check falls through: the lookup's effect,
      less the entry when it was full-size (and so all English). */
  function Kept(items: map<string, string>, langCode: string, ui: UiStrings, codec: Codec): map<string, string> {
    var cached := CachedEntry(items, langCode, codec);
    if cached.Some? && |cached.value.Keys| == |ui.keys| then AfterLookup(items) - {CachePrefix + langCode}
    else AfterLookup(items)
  }

  /** The rest of `loadTranslations` once the cache has not answered: the
      key check, the batch translation, and caching of a real translation.
      The storage changes only by saving a translation that differs from
      English, the one then shown. */
  function TranslateAndCache(kept: map<string, string>, langCode: string, apiKey: Option<string>,
                             ui: UiStrings, codec: Codec, reply: BatchReply)
    : (r: (TranslationState, map<string, string>))
    requires WellFormed(ui)
    ensures !r.0.isLoading
    ensures r.0.error.Some? <==> r.0.translations == ui.english && r.0 != Ready(ui.english)
    ensures r.0.error.None? ==> r.0 == Ready(r.0.translations) && Differs(r.0.translations, ui.english)
    ensures r.1 == (if r.0.error.None? then SavedItems(kept, langCode, r.0.translations, codec) else kept)
  {
    if apiKey.None? || apiKey.value == "" then (TranslationState(ui.english, false, Some(NoApiKey)), kept)
    else
      match TranslateResult(ui, reply)
      case Err(message) => (TranslationState(ui.english, false, Some(message.GetOr(TranslationFailed))), kept)
      case Ok(t) =>
        if Differs(t, ui.english) then (Ready(t), SavedItems(kept, langCode, t, codec))
        else (TranslationState(ui.english, false, Some(EnglishReturned)), kept)
  }

  /** The state `loadTranslations` settles on, and the storage it leaves. */
  function Load(items: map<string, string>, langCode: string, apiKey: Option<string>,
                prebuilt: map<string, Translations>, ui: UiStrings, codec: Codec, reply: BatchReply)
    : (r: (TranslationState, map<string, string>))
    requires WellFormed(ui)
    ensures !r.0.isLoading
    ensures r.0.error.Some? ==> r.0.translations == ui.english
  {
    if langCode == "en" then (Ready(ui.english), items)
    else if langCode in prebuilt then (Ready(prebuilt[langCode]), items)
    else if Accepted(items, langCode, ui, codec) then (Ready(CachedEntry(items, langCode, codec).value), AfterLookup(items))
    else TranslateAndCache(Kept(items, langCode, ui, codec), langCode, apiKey, ui, codec, reply)
  }

  /** `loadTranslations`, run to completion. */
  method LoadTranslations(storage: Storage, langCode: string, apiKey: Option<string>,
                          prebuilt: map<string, Translations>, ui: UiStrings, codec: Codec, reply: BatchReply)
    returns (state: TranslationState)
    requires WellFormed(ui)
    modifies storage
    ensures (state, storage.items) == Load(old(storage.items), langCode, apiKey, prebuilt, ui, codec, reply)
  {
    if langCode == "en" {
      return Ready(ui.english);
    }
    if langCode in prebuilt {
      return Ready(prebuilt[langCode]);
    }
    var cached := storage.GetCachedTranslations(langCode, codec);
    if cached.Some? && |cached.value.Keys| == |ui.keys| {
      if Differs(cached.value, ui.english) {
        return Ready(cached.value);
      } else {
        storage.RemoveItem(CachePrefix + langCode);
      }
    }
    if apiKey.None? || apiKey.value == "" {
      return TranslationState(ui.english, false, Some(NoApiKey));
    }
    var translated := TranslateStrings(ui, reply);
    if translated.Err? {
      return TranslationState(ui.english, false, Some(translated.error.GetOr(TranslationFailed)));
    }
    var translations := translated.value;
    if Differs(translations, ui.english) {
      storage.SaveToCache(langCode, translations, codec);
      state := Ready(translations);
    } else {
      state := TranslationState(ui.english, false, Some(EnglishReturned));
    }
  }

  // ---------------------------------------------------------------------
  // What loading guarantees

  /** English and prebuilt languages are answered without looking at the
      storage or the network, and leave the storage alone. */
  lemma ShortCircuits(items: map<string, string>, other: map<string, string>, langCode: string,
                      apiKey: Option<string>, prebuilt: map<string, Translations>, ui: UiStrings,
                      codec: Codec, reply: BatchReply, otherReply: BatchReply)
    requires WellFormed(ui)
    requires langCode == "en" || langCode in prebuilt
    ensures Load(items, langCode, apiKey, prebuilt, ui, codec, reply).1 == items
    ensures Load(items, langCode, apiKey, prebuilt, ui, codec, reply).0
         == Load(other, langCode, apiKey, prebuilt, ui, codec, otherReply).0
    ensures Load(items, langCode, apiKey, prebuilt, ui, codec, reply).0
         == Ready(if langCode == "en" then ui.english else prebuilt[langCode])
  {
  }

  /** A cached entry is served, without the network, exactly when it has as
      many keys as the English strings and some text differs from English.
      Any other entry is never served: loading goes on as if there were no
      entry, after removing a full-size (all-English) one. */
  lemma CacheAcceptance(items: map<string, string>, langCode: string, apiKey: Option<string>,
                        prebuilt: map<string, Translations>, ui: UiStrings, codec: Codec,
                        reply: BatchReply, otherReply: BatchReply)
    requires WellFormed(ui)
    requires langCode != "en" && langCode !in prebuilt
    ensures var cached := CachedEntry(items, langCode, codec);
      && (Accepted(items, langCode, ui, codec) <==>
            cached.Some? && |cached.value.Keys| == |ui.keys| && Differs(cached.value, ui.english))
      && (Accepted(items, langCode, ui, codec) ==>
            && Load(items, langCode, apiKey, prebuilt, ui, codec, reply) == (Ready(cached.value), items)
            && Load(items, langCode, apiKey, prebuilt, ui, codec, otherReply) == (Ready(cached.value), items))
      && (!Accepted(items, langCode, ui, codec) ==>
            Load(items, langCode, apiKey, prebuilt, ui, codec, reply)
            == TranslateAndCache(Kept(items, langCode, ui, codec), langCode, apiKey, ui, codec, reply))
      && (cached.Some? && |cached.value.Keys| == |ui.keys| && !Differs(cached.value, ui.english) ==>
            CachePrefix + langCode !in Kept(items, langCode, ui, codec))
      && (cached.None? ==> Kept(items, langCode, ui, codec) == AfterLookup(items))
  {
  }

  /** Without an API key and without an acceptable cache entry (none, one of
      the wrong size, or one that is all English) the English strings are
      shown with an error. */
  lemma NoKeyFallsBack(items: map<string, string>, langCode: string, apiKey: Option<string>,
                       prebuilt: map<string, Translations>, ui: UiStrings, codec: Codec, reply: BatchReply)
    requires WellFormed(ui)
    requires langCode != "en" && langCode !in prebuilt
    requires apiKey.None? || apiKey.value == ""
    requires !Accepted(items, langCode, ui, codec)
    ensures Load(items, langCode, apiKey, prebuilt, ui, codec, reply).0 == TranslationState(ui.english, false, Some(NoApiKey))
  {
  }

  /** The language's entry is only ever written with a translation that
      differs from English, the one the state then shows. */
  lemma CachesOnlyTranslations(items: map<string, string>, langCode: string, apiKey: Option<string>,
                               prebuilt: map<string, Translations>, ui: UiStrings, codec: Codec, reply: BatchReply)
    requires WellFormed(ui)
    ensures var (state, after) := Load(items, langCode, apiKey, prebuilt, ui, codec, reply);
            var key := CachePrefix + langCode;
      key in after && (key !in items || after[key] != items[key]) ==>
        && state == Ready(state.translations)
        && Differs(state.translations, ui.english)
        && after[key] == codec.encode(state.translations)
  {
  }

  /** A language translated once is served from the cache next time, with
      neither key nor network needed. */
  lemma TranslatedThenCached(items: map<string, string>, langCode: string, apiKey: Option<string>,
                             prebuilt: map<string, Translations>, ui: UiStrings, codec: Codec,
                             data: seq<Option<string>>, laterKey: Option<string>, laterReply: BatchReply)
    requires WellFormed(ui) && JsonLike(codec)
    requires langCode != "en" && langCode !in prebuilt && langCode != "version"
    requires apiKey.Some? && apiKey.value != ""
    requires CachedEntry(items, langCode, codec).None?
    requires Differs(TranslateResult(ui, Translated(data)).value, ui.english)
    ensures var (state, after) := Load(items, langCode, apiKey, prebuilt, ui, codec, Translated(data));
      && state == Ready(TranslateResult(ui, Translated(data)).value)
      && Load(after, langCode, laterKey, prebuilt, ui, codec, laterReply) == (state, after)
  {
    var t := TranslateResult(ui, Translated(data)).value;
    TranslatedKeys(ui, data);
    var kept := AfterLookup(items);
    SaveThenLookup(kept, langCode, t, codec);
  }
}
