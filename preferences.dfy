/**
  preferences/preferences.go: the PreferencesSynchronizer keeps a registry of
  preference keys in four typed lists and ties each registered binding to the
  preference store. Registering a key loads the stored value (or the fallback)
  into the binding; from then on every change of the binding is written back
  under the same key. A key may be registered once across all four lists.

  A binding of type string, int or bool is the caller's: Add* returns the value
  it loads into it, and its write-back listener is On*Changed. An int-array
  binding is an XBinding.IntArray object, filled by AddIntArray itself.
*/
module Preferences {
  import opened Results
  import opened PrefStore
  import Collections
  import XBinding

  function KeyInUse(key: string): string {
    "key " + key + " is already in use"
  }

  /** isKeyExistInCollection: a scan of one registry list for `key`. */
  method IsKeyExistInCollection(key: string, collection: seq<string>) returns (found: bool)
    ensures found <==> key in collection
  {
    for i := 0 to |collection|
      invariant key !in collection[..i]
    {
      if collection[i] == key {
        return true;
      }
    }
    assert collection[..|collection|] == collection;
    return false;
  }

  /**
    The value AddIntArray loads: the stored text, read with "[]" as the
    fallback; "[]" gives `fallback`; any other text is decoded.
  */
  function LoadIntArray(store: Store, key: string, fallback: seq<int>, decode: string -> Result<seq<int>>): (r: Result<seq<int>>)
    ensures key !in store ==> r == Ok(fallback)
    ensures StringWithFallback(store, key, "[]") == "[]" ==> r == Ok(fallback)
    ensures key in store && store[key].StoredString? && store[key].s != "[]" ==> r == decode(store[key].s)
  {
    var serialized := StringWithFallback(store, key, "[]");
    if serialized != "[]" then decode(serialized) else Ok(fallback)
  }

  class PreferencesSynchronizer {
    var stringKeys: seq<string>
    var intKeys: seq<string>
    var boolKeys: seq<string>
    var intArrayKeys: seq<string>
    /** The application's preference store. */
    var store: Store
    /** json.Unmarshal into an int slice. */
    const decodeInts: string -> Result<seq<int>>
    /** json.Marshal of an int slice. */
    const encodeInts: seq<int> -> string

    /** Every registered key, all four lists together. */
    ghost function Keys(): seq<string>
      reads this
    {
      stringKeys + intKeys + boolKeys + intArrayKeys
    }

    /** Keys are unique across the four lists. */
    ghost predicate Valid()
      reads this
    {
      Collections.Distinct(Keys())
    }

    /** NewPreferencesSynchronizer: four empty lists over the application's store. */
    constructor (store: Store, decodeInts: string -> Result<seq<int>>, encodeInts: seq<int> -> string)
      ensures Valid()
      ensures stringKeys == intKeys == boolKeys == intArrayKeys == []
      ensures this.store == store && this.decodeInts == decodeInts && this.encodeInts == encodeInts
    {
      stringKeys := [];
      intKeys := [];
      boolKeys := [];
      intArrayKeys := [];
      this.store := store;
      this.decodeInts := decodeInts;
      this.encodeInts := encodeInts;
    }

    /** isKeyExisting: the four lists scanned in turn. */
    method IsKeyExisting(key: string) returns (r: bool)
      ensures r <==> key in stringKeys || key in intKeys || key in boolKeys || key in intArrayKeys
      ensures r <==> key in Keys()
    {
      var exist := IsKeyExistInCollection(key, stringKeys);
      if exist {
        return true;
      }
      exist := IsKeyExistInCollection(key, intKeys);
      if exist {
        return true;
      }
      exist := IsKeyExistInCollection(key, boolKeys);
      if exist {
        return true;
      }
      exist := IsKeyExistInCollection(key, intArrayKeys);
      if exist {
        return true;
      }
      return false;
    }

    /**
      AddString: a key in use is an error and changes nothing; otherwise the
      stored string (or the fallback) is loaded, the key is registered and the
      listener's first run writes the loaded value back.
    */
    method AddString(key: string, fallback: string) returns (r: Result<string>)
      requires Valid()
      modifies this`stringKeys, this`store
      ensures Valid()
      ensures old(key in Keys()) ==> r == Err(KeyInUse(key)) && stringKeys == old(stringKeys) && store == old(store)
      ensures !old(key in Keys()) ==>
        && r == Ok(StringWithFallback(old(store), key, fallback))
        && stringKeys == old(stringKeys) + [key]
        && store == old(store)[key := StoredString(r.value)]
    {
      var inUse := IsKeyExisting(key);
      if inUse {
        return Err(KeyInUse(key));
      }
      var value := StringWithFallback(store, key, fallback);
      stringKeys := stringKeys + [key];
      store := store[key := StoredString(value)];
      r := Ok(value);
      assert old(Keys()) == old(stringKeys) + (intKeys + boolKeys + intArrayKeys);
      NewKeyKeepsDistinct(old(stringKeys), intKeys + boolKeys + intArrayKeys, key);
      assert Keys() == old(stringKeys) + [key] + (intKeys + boolKeys + intArrayKeys);
    }

    /** AddInt: as AddString, over the int list and int values. */
    method AddInt(key: string, fallback: int) returns (r: Result<int>)
      requires Valid()
      modifies this`intKeys, this`store
      ensures Valid()
      ensures old(key in Keys()) ==> r == Err(KeyInUse(key)) && intKeys == old(intKeys) && store == old(store)
      ensures !old(key in Keys()) ==>
        && r == Ok(IntWithFallback(old(store), key, fallback))
        && intKeys == old(intKeys) + [key]
        && store == old(store)[key := StoredInt(r.value)]
    {
      var inUse := IsKeyExisting(key);
      if inUse {
        return Err(KeyInUse(key));
      }
      var value := IntWithFallback(store, key, fallback);
      intKeys := intKeys + [key];
      store := store[key := StoredInt(value)];
      r := Ok(value);
      assert old(Keys()) == (stringKeys + old(intKeys)) + (boolKeys + intArrayKeys);
      NewKeyKeepsDistinct(stringKeys + old(intKeys), boolKeys + intArrayKeys, key);
      assert Keys() == (stringKeys + old(intKeys)) + [key] + (boolKeys + intArrayKeys);
    }

    /** AddBool: as AddString, over the bool list and bool values. */
    method AddBool(key: string, fallback: bool) returns (r: Result<bool>)
      requires Valid()
      modifies this`boolKeys, this`store
      ensures Valid()
      ensures old(key in Keys()) ==> r == Err(KeyInUse(key)) && boolKeys == old(boolKeys) && store == old(store)
      ensures !old(key in Keys()) ==>
        && r == Ok(BoolWithFallback(old(store), key, fallback))
        && boolKeys == old(boolKeys) + [key]
        && store == old(store)[key := StoredBool(r.value)]
    {
      var inUse := IsKeyExisting(key);
      if inUse {
        return Err(KeyInUse(key));
      }
      var value := BoolWithFallback(store, key, fallback);
      boolKeys := boolKeys + [key];
      store := store[key := StoredBool(value)];
      r := Ok(value);
      assert old(Keys()) == (stringKeys + intKeys + old(boolKeys)) + intArrayKeys;
      NewKeyKeepsDistinct(stringKeys + intKeys + old(boolKeys), intArrayKeys, key);
      assert Keys() == (stringKeys + intKeys + old(boolKeys)) + [key] + intArrayKeys;
    }

    /**
      AddIntArray: a key in use is an error; otherwise the stored text is
      loaded (LoadIntArray). A decode error is returned before anything is
      set or registered; on success the binding is set, the key registered, and
      the listener's first run writes the encoded list back.
    */
    method AddIntArray(key: string, value: XBinding.IntArray, fallback: seq<int>) returns (err: Option<string>)
      requires Valid() && value.Valid()
      modifies this`intArrayKeys, this`store, value
      ensures Valid() && value.Valid()
      ensures old(key in Keys()) ==>
        err == Some(KeyInUse(key)) && intArrayKeys == old(intArrayKeys) && store == old(store) && unchanged(value)
      ensures !old(key in Keys()) && LoadIntArray(old(store), key, fallback, decodeInts).Err? ==>
        && err == Some(LoadIntArray(old(store), key, fallback, decodeInts).error)
        && intArrayKeys == old(intArrayKeys) && store == old(store) && unchanged(value)
      ensures !old(key in Keys()) && LoadIntArray(old(store), key, fallback, decodeInts).Ok? ==>
        && err == None
        && value.Contents() == LoadIntArray(old(store), key, fallback, decodeInts).value
        && intArrayKeys == old(intArrayKeys) + [key]
        && store == old(store)[key := StoredString(encodeInts(value.Contents()))]
    {
      var inUse := IsKeyExisting(key);
      if inUse {
        return Some(KeyInUse(key));
      }
      match LoadIntArray(store, key, fallback, decodeInts)
      case Err(e) =>
        return Some(e);
      case Ok(deserialized) =>
        value.Set(deserialized);
        intArrayKeys := intArrayKeys + [key];
        var current := value.Get();
        store := store[key := StoredString(encodeInts(current))];
        err := None;
        assert old(Keys()) == (stringKeys + intKeys + boolKeys + old(intArrayKeys)) + [];
        NewKeyKeepsDistinct(stringKeys + intKeys + boolKeys + old(intArrayKeys), [], key);
        assert Keys() == (stringKeys + intKeys + boolKeys + old(intArrayKeys)) + [key] + [];
    }

    /** The write-back listener of the string binding registered under `key`. */
    method OnStringChanged(key: string, v: string)
      requires key in stringKeys
      modifies this`store
      ensures store == old(store)[key := StoredString(v)]
    {
      store := store[key := StoredString(v)];
    }

    /** The write-back listener of the int binding registered under `key`. */
    method OnIntChanged(key: string, v: int)
      requires key in intKeys
      modifies this`store
      ensures store == old(store)[key := StoredInt(v)]
    {
      store := store[key := StoredInt(v)];
    }

    /** The write-back listener of the bool binding registered under `key`. */
    method OnBoolChanged(key: string, v: bool)
      requires key in boolKeys
      modifies this`store
      ensures store == old(store)[key := StoredBool(v)]
    {
      store := store[key := StoredBool(v)];
    }

    /** The write-back listener of the int-array binding registered under `key`: the list is encoded. */
    method OnIntArrayChanged(key: string, value: XBinding.IntArray)
      requires key in intArrayKeys && value.Valid()
      modifies this`store
      ensures store == old(store)[key := StoredString(encodeInts(value.Contents()))]
    {
      var v := value.Get();
      store := store[key := StoredString(encodeInts(v))];
    }
  }

  /** Inserting a key absent from both parts keeps a duplicate-free list duplicate-free. */
  lemma NewKeyKeepsDistinct(front: seq<string>, back: seq<string>, key: string)
    requires Collections.Distinct(front + back) && key !in front + back
    ensures Collections.Distinct(front + [key] + back)
  {
    var s := front + [key] + back;
    forall i, j | 0 <= i < j < |s| ensures s[i] != s[j] {
      var t := front + back;
      if i < |front| && j == |front| {
        assert s[i] == t[i];
      } else if i == |front| {
        assert s[j] == t[j - 1];
      } else {
        var i' := if i < |front| then i else i - 1;
        var j' := if j < |front| then j else j - 1;
        assert s[i] == t[i'] && s[j] == t[j'];
      }
    }
  }

  // The scenarios of preferences/preferences_test.go, as methods whose
  // postconditions are the tests' expectations.

  /** TestPreferences_Bool_Empty and _NonEmpty: load, write back, refuse a second registration. */
  method BoolScenario(saved: Option<bool>, decode: string -> Result<seq<int>>, encode: seq<int> -> string)
    returns (loaded: Result<bool>, written: StoredValue, again: Result<bool>)
    ensures loaded == Ok(if saved.Some? then saved.value else false)
    ensures written == StoredBool(!loaded.value)
    ensures again == Err(KeyInUse("testBool"))
  {
    var store: Store := if saved.Some? then map["testBool" := StoredBool(saved.value)] else map[];
    var p := new PreferencesSynchronizer(store, decode, encode);
    loaded := p.AddBool("testBool", false);
    p.OnBoolChanged("testBool", !loaded.value);
    written := p.store["testBool"];
    again := p.AddBool("testBool", false);
  }

  /** TestPreferences_Int_Empty and _NonEmpty: 20 from the fallback, 16 from the store; a change to 1 is written back. */
  method IntScenario(saved: Option<int>, decode: string -> Result<seq<int>>, encode: seq<int> -> string)
    returns (loaded: Result<int>, written: StoredValue, again: Result<int>)
    ensures loaded == Ok(if saved.Some? then saved.value else 20)
    ensures written == StoredInt(1)
    ensures again.Err?
  {
    var store: Store := if saved.Some? then map["testInt" := StoredInt(saved.value)] else map[];
    var p := new PreferencesSynchronizer(store, decode, encode);
    loaded := p.AddInt("testInt", 20);
    p.OnIntChanged("testInt", 1);
    written := p.store["testInt"];
    again := p.AddInt("testInt", 0);
  }

  /** TestPreferences_IntArray_Empty: nothing stored gives the fallback; a later Set reads back. */
  method IntArrayEmptyScenario(decode: string -> Result<seq<int>>, encode: seq<int> -> string)
    returns (err: Option<string>, loaded: seq<int>, after: seq<int>)
    ensures err == None && loaded == [1, 2, 3] && after == [4, 5, 6]
  {
    var p := new PreferencesSynchronizer(map[], decode, encode);
    var binding := new XBinding.IntArray();
    err := p.AddIntArray("testIntArray", binding, [1, 2, 3]);
    loaded := binding.Get();
    binding.Set([4, 5, 6]);
    after := binding.Get();
  }

  /** TestPreferences_IntArray_NonEmpty: stored text is decoded in place of the fallback. */
  method IntArrayNonEmptyScenario(decode: string -> Result<seq<int>>, encode: seq<int> -> string)
    returns (err: Option<string>, loaded: seq<int>)
    requires decode("[3, 5, 8]") == Ok([3, 5, 8])
    ensures err == None && loaded == [3, 5, 8]
  {
    var p := new PreferencesSynchronizer(map["testIntArray" := StoredString("[3, 5, 8]")], decode, encode);
    var binding := new XBinding.IntArray();
    err := p.AddIntArray("testIntArray", binding, [1, 2, 3]);
    loaded := binding.Get();
  }
}
