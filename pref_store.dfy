/**
  The application's preference store (fyne's Preferences) as a map from key to
  a typed value, with the typed *WithFallback reads the synchronizers use: the
  stored value when the key holds one of the requested type, else the fallback.
*/
module PrefStore {

  datatype StoredValue = StoredString(s: string) | StoredInt(i: int) | StoredBool(b: bool)

  type Store = map<string, StoredValue>

  function StringWithFallback(store: Store, key: string, fallback: string): string
  {
    if key in store && store[key].StoredString? then store[key].s else fallback
  }

  function IntWithFallback(store: Store, key: string, fallback: int): int
  {
    if key in store && store[key].StoredInt? then store[key].i else fallback
  }

  function BoolWithFallback(store: Store, key: string, fallback: bool): bool
  {
    if key in store && store[key].StoredBool? then store[key].b else fallback
  }

}
