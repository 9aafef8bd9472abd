/** The session toggle store of `extensions/active-memory/index.ts`: reading, changing, and the order of changes. */
module ToggleStore {
  import opened Results
  import opened Text

  datatype Entry = Entry(disabled: bool, updatedAt: Option<int>)

  /** `sessions` as the file holds it; a missing file has none. */
  type Store = map<string, Entry>

  datatype Toggle = Toggle(sessionKey: string, disabled: bool, at: int)

  /** `readToggleStore`: only disabled entries under a non-blank key survive. */
  function Normalized(disk: Store): Store {
    map k | k in disk && Trim(k) != "" && disk[k].disabled :: disk[k]
  }

  /** The change made to a store that was read. */
  function Changed(store: Store, t: Toggle): Store {
    if t.disabled then store[t.sessionKey := Entry(true, Some(t.at))]
    else store - {t.sessionKey}
  }

  function Apply(disk: Store, t: Toggle): Store {
    Changed(Normalized(disk), t)
  }

  function ApplyAll(disk: Store, toggles: seq<Toggle>): Store {
    if toggles == [] then disk
    else Apply(ApplyAll(disk, toggles[..|toggles|-1]), toggles[|toggles|-1])
  }

  /** The position of the last toggle for a session, or -1. */
  function LastToggle(toggles: seq<Toggle>, key: string): (i: int)
    ensures -1 <= i < |toggles|
    ensures i >= 0 ==> toggles[i].sessionKey == key
    ensures forall j :: i < j < |toggles| ==> toggles[j].sessionKey != key
  {
    if toggles == [] then -1
    else if toggles[|toggles|-1].sessionKey == key then |toggles|-1
    else LastToggle(toggles[..|toggles|-1], key)
  }

  /** What a reader of the file finds for a session. */
  function Found(disk: Store, key: string): Option<Entry> {
    var store := Normalized(disk);
    if key in store then Some(store[key]) else None
  }

  lemma ApplyFound(disk: Store, t: Toggle, key: string)
    requires Trim(key) != ""
    ensures Found(Apply(disk, t), key) ==
            if t.sessionKey != key then Found(disk, key)
            else if t.disabled then Some(Entry(true, Some(t.at))) else None
  {
    hide Trim;
  }

  /**
   * A session is disabled exactly when its last toggle disabled it, at that toggle's time;
   * a session nobody toggled is found as it was.
   */
  lemma {:induction false} LastToggleWins(disk: Store, toggles: seq<Toggle>, key: string)
    requires Trim(key) != ""
    ensures var last := LastToggle(toggles, key);
      Found(ApplyAll(disk, toggles), key) ==
        if last < 0 then Found(disk, key)
        else if toggles[last].disabled then Some(Entry(true, Some(toggles[last].at))) else None
  {
    hide Found, Apply, Trim;
    if toggles != [] {
      LastToggleWins(disk, toggles[..|toggles|-1], key);
      ApplyFound(ApplyAll(disk, toggles[..|toggles|-1]), toggles[|toggles|-1], key);
    }
  }

  /** What the file holds after a change: the toggled session if it was disabled, and the other disabled sessions. */
  lemma ApplyExact(disk: Store, t: Toggle, key: string, entry: Entry)
    ensures key in Apply(disk, t) && Apply(disk, t)[key] == entry <==>
      if key == t.sessionKey then t.disabled && entry == Entry(true, Some(t.at))
      else key in disk && disk[key] == entry && entry.disabled && Trim(key) != ""
  {
    hide Trim;
  }

  /** A session reads as disabled exactly if the file says so, under a key that is not blank. */
  lemma FoundExact(disk: Store, key: string, entry: Entry)
    ensures Found(disk, key) == Some(entry) <==> Trim(key) != "" && key in disk && disk[key] == entry && entry.disabled
  {
    hide Trim;
  }

  /** The result of any toggles, in terms of the file they started from. */
  lemma TogglesSpelledOut(disk: Store, toggles: seq<Toggle>, key: string, entry: Entry)
    ensures var last := LastToggle(toggles, key);
      Found(ApplyAll(disk, toggles), key) == Some(entry) <==>
        Trim(key) != "" && entry.disabled
        && if last >= 0 then toggles[last].disabled && entry == Entry(true, Some(toggles[last].at))
           else key in disk && disk[key] == entry
  {
    FoundExact(disk, key, entry);
    FoundExact(ApplyAll(disk, toggles), key, entry);
    if Trim(key) != "" { LastToggleWins(disk, toggles, key); }
    hide Trim, Found, LastToggle, ApplyAll;
  }
}
