/**
 The selected-coins persistence helpers. The browser's storage is a map from keys to
 strings; `JSON.stringify` and `JSON.parse` are parameters, and a storage call that
 throws is the flag `fails` (the helpers catch every error).
 */
module LocalStorage {
  import opened Wrappers
  import opened Json

  const SelectedCoinsKey: string := "cryptograph_selected_coins"

  type Storage = map<string, string>

  /** `saveSelectedCoinsToStorage`: the key holds the stringified ids; a failing `setItem` leaves the storage as it was. */
  function Save(storage: Storage, coinIds: seq<string>, stringify: seq<string> -> string, fails: bool): (r: Storage)
    ensures fails ==> r == storage
    ensures !fails ==> SelectedCoinsKey in r && r[SelectedCoinsKey] == stringify(coinIds)
    ensures forall k :: k in storage && k != SelectedCoinsKey ==> k in r && r[k] == storage[k]
    ensures forall k :: k in r && k != SelectedCoinsKey ==> k in storage
  {
    if fails then storage else storage[SelectedCoinsKey := stringify(coinIds)]
  }

  /** Every element is a JSON string. */
  predicate AllStrings(items: seq<Json>) {
    forall i :: 0 <= i < |items| ==> items[i].Str?
  }

  /**
   `loadSelectedCoinsFromStorage`: the stored array when the key holds a non-empty text that
   parses to an array of strings; the empty list when the key is missing or empty, the text
   does not parse, the value is anything else, or storage throws.
   */
  function Load(storage: Storage, parse: string -> Option<Json>, fails: bool): (r: seq<string>)
    ensures r != [] ==>
      && !fails && SelectedCoinsKey in storage && storage[SelectedCoinsKey] != ""
      && parse(storage[SelectedCoinsKey]).Some?
      && parse(storage[SelectedCoinsKey]).value.Array?
      && |r| == |parse(storage[SelectedCoinsKey]).value.items|
      && forall i :: 0 <= i < |r| ==> parse(storage[SelectedCoinsKey]).value.items[i] == Str(r[i])
    ensures
      (&& !fails && SelectedCoinsKey in storage && storage[SelectedCoinsKey] != ""
       && parse(storage[SelectedCoinsKey]).Some?
       && parse(storage[SelectedCoinsKey]).value.Array?
       && AllStrings(parse(storage[SelectedCoinsKey]).value.items))
      ==>
      (&& |r| == |parse(storage[SelectedCoinsKey]).value.items|
       && forall i :: 0 <= i < |r| ==> parse(storage[SelectedCoinsKey]).value.items[i] == Str(r[i]))
  {
    if fails || SelectedCoinsKey !in storage || storage[SelectedCoinsKey] == "" then []
    else
      match parse(storage[SelectedCoinsKey])
      case Some(Array(items)) =>
        if AllStrings(items) then seq(|items|, i requires 0 <= i < |items| => items[i].s) else []
      case _ => []
  }

  /** `clearSelectedCoinsFromStorage`: the key is removed, every other entry kept; a failing `removeItem` changes nothing. */
  function Clear(storage: Storage, fails: bool): (r: Storage)
    ensures fails ==> r == storage
    ensures !fails ==> SelectedCoinsKey !in r
    ensures forall k :: k in storage && k != SelectedCoinsKey ==> k in r && r[k] == storage[k]
    ensures forall k :: k in r ==> k in storage
  {
    if fails then storage else storage - {SelectedCoinsKey}
  }

  /** The JSON array of strings that `JSON.stringify` writes for a list of ids. */
  function StringArray(ids: seq<string>): (v: Json)
    ensures v.Array? && |v.items| == |ids|
    ensures forall i :: 0 <= i < |ids| ==> v.items[i] == Str(ids[i])
  {
    Array(seq(|ids|, i requires 0 <= i < |ids| => Str(ids[i])))
  }

  /** Saving and then loading gives back the ids, provided parsing inverts stringifying. */
  lemma SaveThenLoad(storage: Storage, ids: seq<string>, stringify: seq<string> -> string, parse: string -> Option<Json>)
    requires stringify(ids) != ""
    requires parse(stringify(ids)) == Some(StringArray(ids))
    ensures Load(Save(storage, ids, stringify, false), parse, false) == ids
  {
    var r := Load(Save(storage, ids, stringify, false), parse, false);
    assert |r| == |ids|;
    assert forall i :: 0 <= i < |ids| ==> r[i] == ids[i];
  }

  /** After a successful clear, loading gives the empty list. */
  lemma ClearThenLoad(storage: Storage, parse: string -> Option<Json>)
    ensures Load(Clear(storage, false), parse, false) == []
  {
  }

  /** Loading reads the selected-coins key only. */
  lemma LoadIgnoresOtherKeys(storage: Storage, k: string, v: string, parse: string -> Option<Json>, fails: bool)
    requires k != SelectedCoinsKey
    ensures Load(storage[k := v], parse, fails) == Load(storage, parse, fails)
  {
    assert SelectedCoinsKey in storage[k := v] <==> SelectedCoinsKey in storage;
  }
}
