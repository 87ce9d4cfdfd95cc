/**
  The root package's PreferencesSynchronizer (preferences.go): string, int and
  bool preferences as in module Preferences, checked against three lists, plus
  one list-of-presets preference held in the `userPresets` field. That field
  keeps Go's zero value: AddPresets installs a write-back listener but never
  records its key, so the field's key stays "".

  Presets are stored as the text of their JSON form; the text codec is a pair
  of parameters over the Timezone.PresetJson shape, which leaves ids out.
*/
module RootPreferences {
  import opened Results
  import opened PrefStore
  import Collections
  import Timezone
  import Preferences

  /** AddPresets' outcomes: the presets loaded, a key in use, or a panic on undecodable stored text. */
  datatype PresetsOutcome = Added(presets: seq<Timezone.Preset>) | Refused(error: string) | Panicked(reason: string)

  /**
    The presets AddPresets loads: the stored text, read with "[]" as the
    fallback; "[]" gives `fallback`; other text is decoded, ids coming back as 0.
  */
  function LoadPresets(store: Store, key: string, fallback: seq<Timezone.Preset>,
                       decode: string -> Result<seq<Timezone.PresetJson>>): (r: Result<seq<Timezone.Preset>>)
    ensures key !in store ==> r == Ok(fallback)
    ensures StringWithFallback(store, key, "[]") == "[]" ==> r == Ok(fallback)
    ensures StringWithFallback(store, key, "[]") != "[]" ==>
      (r.Ok? <==> decode(StringWithFallback(store, key, "[]")).Ok?)
    ensures StringWithFallback(store, key, "[]") != "[]" && r.Ok? ==>
      forall i :: 0 <= i < |r.value| ==> r.value[i].id == 0
  {
    var storageValue := StringWithFallback(store, key, "[]");
    if storageValue == "[]" then Ok(fallback)
    else
      match decode(storageValue)
      case Err(e) => Err(e)
      case Ok(js) => Ok(Timezone.DeserializePresets(js))
  }

  class PreferencesSynchronizer {
    var stringKeys: seq<string>
    var intKeys: seq<string>
    var boolKeys: seq<string>
    /** The key of the `userPresets` field. */
    var userPresetsKey: string
    /** The key of each write-back listener AddPresets has installed, in order. */
    var presetListenerKeys: seq<string>
    var store: Store
    /** json.Unmarshal of a preset list. */
    const decodePresets: string -> Result<seq<Timezone.PresetJson>>
    /** json.Marshal of a preset list. */
    const encodePresets: seq<Timezone.PresetJson> -> string

    ghost function Keys(): seq<string>
      reads this
    {
      stringKeys + intKeys + boolKeys + [userPresetsKey]
    }

    /** The three lists and the userPresets key are pairwise distinct. */
    ghost predicate Valid()
      reads this
    {
      Collections.Distinct(Keys())
    }

    constructor (store: Store, decodePresets: string -> Result<seq<Timezone.PresetJson>>,
                 encodePresets: seq<Timezone.PresetJson> -> string)
      ensures Valid()
      ensures stringKeys == intKeys == boolKeys == presetListenerKeys == [] && userPresetsKey == ""
      ensures this.store == store && this.decodePresets == decodePresets && this.encodePresets == encodePresets
    {
      stringKeys := [];
      intKeys := [];
      boolKeys := [];
      userPresetsKey := "";
      presetListenerKeys := [];
      this.store := store;
      this.decodePresets := decodePresets;
      this.encodePresets := encodePresets;
    }

    /** isKeyExisting: the three lists, then the userPresets field's key. */
    method IsKeyExisting(key: string) returns (r: bool)
      ensures r <==> key in Keys()
    {
      var exist := Preferences.IsKeyExistInCollection(key, stringKeys);
      if exist {
        return true;
      }
      exist := Preferences.IsKeyExistInCollection(key, intKeys);
      if exist {
        return true;
      }
      exist := Preferences.IsKeyExistInCollection(key, boolKeys);
      if exist {
        return true;
      }
      return userPresetsKey == key;
    }

    /** AddString: refused for a key in use (the empty key included); otherwise load, register, write back. */
    method AddString(key: string, fallback: string) returns (r: Result<string>)
      requires Valid()
      modifies this`stringKeys, this`store
      ensures Valid()
      ensures old(key in Keys()) ==> r == Err(Preferences.KeyInUse(key)) && stringKeys == old(stringKeys) && store == old(store)
      ensures !old(key in Keys()) ==>
        && r == Ok(StringWithFallback(old(store), key, fallback))
        && stringKeys == old(stringKeys) + [key]
        && store == old(store)[key := StoredString(r.value)]
    {
      var inUse := IsKeyExisting(key);
      if inUse {
        return Err(Preferences.KeyInUse(key));
      }
      var value := StringWithFallback(store, key, fallback);
      stringKeys := stringKeys + [key];
      store := store[key := StoredString(value)];
      r := Ok(value);
      assert old(Keys()) == old(stringKeys) + (intKeys + boolKeys + [userPresetsKey]);
      Preferences.NewKeyKeepsDistinct(old(stringKeys), intKeys + boolKeys + [userPresetsKey], key);
      assert Keys() == old(stringKeys) + [key] + (intKeys + boolKeys + [userPresetsKey]);
    }

    /** AddInt: as AddString, over the int list. */
    method AddInt(key: string, fallback: int) returns (r: Result<int>)
      requires Valid()
      modifies this`intKeys, this`store
      ensures Valid()
      ensures old(key in Keys()) ==> r == Err(Preferences.KeyInUse(key)) && intKeys == old(intKeys) && store == old(store)
      ensures !old(key in Keys()) ==>
        && r == Ok(IntWithFallback(old(store), key, fallback))
        && intKeys == old(intKeys) + [key]
        && store == old(store)[key := StoredInt(r.value)]
    {
      var inUse := IsKeyExisting(key);
      if inUse {
        return Err(Preferences.KeyInUse(key));
      }
      var value := IntWithFallback(store, key, fallback);
      intKeys := intKeys + [key];
      store := store[key := StoredInt(value)];
      r := Ok(value);
      assert old(Keys()) == (stringKeys + old(intKeys)) + (boolKeys + [userPresetsKey]);
      Preferences.NewKeyKeepsDistinct(stringKeys + old(intKeys), boolKeys + [userPresetsKey], key);
      assert Keys() == (stringKeys + old(intKeys)) + [key] + (boolKeys + [userPresetsKey]);
    }

    /** AddBool: as AddString, over the bool list. */
    method AddBool(key: string, fallback: bool) returns (r: Result<bool>)
      requires Valid()
      modifies this`boolKeys, this`store
      ensures Valid()
      ensures old(key in Keys()) ==> r == Err(Preferences.KeyInUse(key)) && boolKeys == old(boolKeys) && store == old(store)
      ensures !old(key in Keys()) ==>
        && r == Ok(BoolWithFallback(old(store), key, fallback))
        && boolKeys == old(boolKeys) + [key]
        && store == old(store)[key := StoredBool(r.value)]
    {
      var inUse := IsKeyExisting(key);
      if inUse {
        return Err(Preferences.KeyInUse(key));
      }
      var value := BoolWithFallback(store, key, fallback);
      boolKeys := boolKeys + [key];
      store := store[key := StoredBool(value)];
      r := Ok(value);
      assert old(Keys()) == (stringKeys + intKeys + old(boolKeys)) + [userPresetsKey];
      Preferences.NewKeyKeepsDistinct(stringKeys + intKeys + old(boolKeys), [userPresetsKey], key);
      assert Keys() == (stringKeys + intKeys + old(boolKeys)) + [key] + [userPresetsKey];
    }

    /**
      AddPresets as written: refused for a key in use; otherwise the presets
      are loaded (a decode error panics), and a write-back listener is
      installed, whose first run stores the encoded list. The key is not
      recorded anywhere the registry checks.
    */
    method AddPresets(key: string, fallback: seq<Timezone.Preset>) returns (r: PresetsOutcome)
      requires Valid()
      modifies this`presetListenerKeys, this`store
      ensures Valid()
      ensures old(key in Keys()) ==>
        r == Refused(Preferences.KeyInUse(key)) && presetListenerKeys == old(presetListenerKeys) && store == old(store)
      ensures !old(key in Keys()) && LoadPresets(old(store), key, fallback, decodePresets).Err? ==>
        r == Panicked(LoadPresets(old(store), key, fallback, decodePresets).error)
      ensures !old(key in Keys()) && LoadPresets(old(store), key, fallback, decodePresets).Ok? ==>
        && r == Added(LoadPresets(old(store), key, fallback, decodePresets).value)
        && presetListenerKeys == old(presetListenerKeys) + [key]
        && store == old(store)[key := StoredString(encodePresets(Timezone.SerializePresets(r.presets)))]
    {
      var inUse := IsKeyExisting(key);
      if inUse {
        return Refused(Preferences.KeyInUse(key));
      }
      match LoadPresets(store, key, fallback, decodePresets)
      case Err(e) =>
        return Panicked(e);
      case Ok(presets) =>
        presetListenerKeys := presetListenerKeys + [key];
        store := store[key := StoredString(encodePresets(Timezone.SerializePresets(presets)))];
        r := Added(presets);
    }

    /**
      AddPresets with the key recorded in the userPresets field, as the
      uniqueness rule of the registry requires; otherwise the same steps.
    */
    method AddPresetsCorrected(key: string, fallback: seq<Timezone.Preset>) returns (r: PresetsOutcome)
      requires Valid()
      modifies this`presetListenerKeys, this`store, this`userPresetsKey
      ensures Valid()
      ensures old(key in Keys()) ==>
        && r == Refused(Preferences.KeyInUse(key)) && presetListenerKeys == old(presetListenerKeys)
        && store == old(store) && userPresetsKey == old(userPresetsKey)
      ensures !old(key in Keys()) && LoadPresets(old(store), key, fallback, decodePresets).Err? ==>
        r == Panicked(LoadPresets(old(store), key, fallback, decodePresets).error)
      ensures !old(key in Keys()) && LoadPresets(old(store), key, fallback, decodePresets).Ok? ==>
        && r == Added(LoadPresets(old(store), key, fallback, decodePresets).value)
        && userPresetsKey == key
        && presetListenerKeys == old(presetListenerKeys) + [key]
        && store == old(store)[key := StoredString(encodePresets(Timezone.SerializePresets(r.presets)))]
      ensures r.Added? ==> key in Keys()
    {
      var inUse := IsKeyExisting(key);
      if inUse {
        return Refused(Preferences.KeyInUse(key));
      }
      match LoadPresets(store, key, fallback, decodePresets)
      case Err(e) =>
        return Panicked(e);
      case Ok(presets) =>
        var registered := stringKeys + intKeys + boolKeys;
        assert old(Keys()) == registered + [old(userPresetsKey)];
        assert Collections.Distinct(registered + []) by {
          forall i, j | 0 <= i < j < |registered| ensures registered[i] != registered[j] {
            assert registered[i] == old(Keys())[i] && registered[j] == old(Keys())[j];
          }
          assert registered + [] == registered;
        }
        Preferences.NewKeyKeepsDistinct(registered, [], key);
        userPresetsKey := key;
        assert Keys() == registered + [key] + [];
        presetListenerKeys := presetListenerKeys + [key];
        store := store[key := StoredString(encodePresets(Timezone.SerializePresets(presets)))];
        r := Added(presets);
    }

    /** The write-back listener of a presets binding registered under `key`. */
    method OnPresetsChanged(key: string, v: seq<Timezone.Preset>)
      requires key in presetListenerKeys
      modifies this`store
      ensures store == old(store)[key := StoredString(encodePresets(Timezone.SerializePresets(v)))]
    {
      store := store[key := StoredString(encodePresets(Timezone.SerializePresets(v)))];
    }
  }

  /** The empty key is taken from the start: every Add* with key "" is refused. */
  method EmptyKeyRefused(store: Store, decode: string -> Result<seq<Timezone.PresetJson>>,
                         encode: seq<Timezone.PresetJson> -> string)
    returns (s: Result<string>, p: PresetsOutcome)
    ensures s == Err(Preferences.KeyInUse("")) && p == Refused(Preferences.KeyInUse(""))
  {
    var sync := new PreferencesSynchronizer(store, decode, encode);
    s := sync.AddString("", "");
    p := sync.AddPresets("", []);
  }

  /**
    As written, one key is registered three times: AddPresets twice (two
    presets listeners) and then a string preference, which loads the presets'
    JSON text as its value.
  */
  method SharedKeyAccepted(decode: string -> Result<seq<Timezone.PresetJson>>,
                           encode: seq<Timezone.PresetJson> -> string)
    returns (first: PresetsOutcome, second: PresetsOutcome, text: Result<string>, listeners: seq<string>)
    requires encode([]) == "[]"
    ensures first == Added([]) && second == Added([]) && text == Ok("[]")
    ensures listeners == ["presets", "presets"]
  {
    var sync := new PreferencesSynchronizer(map[], decode, encode);
    first := sync.AddPresets("presets", []);
    second := sync.AddPresets("presets", []);
    text := sync.AddString("presets", "x");
    listeners := sync.presetListenerKeys;
  }

  /** With the key recorded, the same sequence is refused after the first registration. */
  method SharedKeyRefused(decode: string -> Result<seq<Timezone.PresetJson>>,
                          encode: seq<Timezone.PresetJson> -> string)
    returns (first: PresetsOutcome, second: PresetsOutcome, text: Result<string>)
    ensures first == Added([])
    ensures second == Refused(Preferences.KeyInUse("presets"))
    ensures text == Err(Preferences.KeyInUse("presets"))
  {
    var sync := new PreferencesSynchronizer(map[], decode, encode);
    first := sync.AddPresetsCorrected("presets", []);
    second := sync.AddPresetsCorrected("presets", []);
    text := sync.AddString("presets", "x");
  }
}
