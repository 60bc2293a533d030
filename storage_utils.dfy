/**
 * The persistence helpers (src/utils/storageUtils.js) over the browser's
 * key-value store. The store is a class whose `items` map the helpers read
 * and write; JSON serialisation is the identity on `Value`, except that a
 * stored text another writer left behind may fail to parse (`Corrupt`). When
 * `failing` is set, every access to the store throws (storage disabled or
 * full), which the helpers catch.
 */
module StorageUtils {
  import opened Wrappers
  import opened Entities
  import opened ProfileLists

  /** A JSON value as the helpers see it: a list of profiles, `null`, or anything else. */
  datatype Value = ProfileList(profiles: seq<Profile>) | Null | Other(json: string)

  /** What a key holds: a value that parses, or text that does not. */
  datatype Stored = Json(value: Value) | Corrupt(text: string)

  const ProfilesKey: string := "natal_chart_profiles"
  const SettingsKey: string := "natal_chart_settings"

  class LocalStorage {
    var items: map<string, Stored>
    var failing: bool

    constructor (items: map<string, Stored>, failing: bool)
      ensures this.items == items && this.failing == failing
    {
      this.items := items;
      this.failing := failing;
    }
  }

  /**
   * `getFromLocalStorage`: the stored value, or the default when the key is
   * absent, when the stored text does not parse, or when the store throws.
   */
  function GetFromLocalStorage(storage: LocalStorage, key: string, default: Value): (r: Value)
    reads storage
    ensures r == default || (!storage.failing && key in storage.items && storage.items[key] == Json(r))
    ensures storage.failing || key !in storage.items || storage.items[key].Corrupt? ==> r == default
    ensures !storage.failing && key in storage.items && storage.items[key].Json? ==> r == storage.items[key].value
  {
    if storage.failing || key !in storage.items then default
    else match storage.items[key]
      case Json(v) => v
      case Corrupt(_) => default
  }

  /** `saveToLocalStorage`: true and the key written, or false and nothing written when the store throws. */
  method SaveToLocalStorage(storage: LocalStorage, key: string, data: Value) returns (ok: bool)
    modifies storage
    ensures ok == !old(storage.failing) && storage.failing == old(storage.failing)
    ensures storage.items == if ok then old(storage.items)[key := Json(data)] else old(storage.items)
    ensures ok ==> forall d :: GetFromLocalStorage(storage, key, d) == data
  {
    if storage.failing {
      return false;
    }
    storage.items := storage.items[key := Json(data)];
    return true;
  }

  /** `removeFromLocalStorage`: true and the key gone, or false and nothing changed when the store throws. */
  method RemoveFromLocalStorage(storage: LocalStorage, key: string) returns (ok: bool)
    modifies storage
    ensures ok == !old(storage.failing) && storage.failing == old(storage.failing)
    ensures storage.items == if ok then old(storage.items) - {key} else old(storage.items)
    ensures ok ==> forall d :: GetFromLocalStorage(storage, key, d) == d
  {
    if storage.failing {
      return false;
    }
    storage.items := storage.items - {key};
    return true;
  }

  /** `clearLocalStorage`: true and every key gone, or false and nothing changed when the store throws. */
  method ClearLocalStorage(storage: LocalStorage) returns (ok: bool)
    modifies storage
    ensures ok == !old(storage.failing) && storage.failing == old(storage.failing)
    ensures storage.items == if ok then map[] else old(storage.items)
  {
    if storage.failing {
      return false;
    }
    storage.items := map[];
    return true;
  }

  /** JavaScript's `a || b` on an optional string: the empty string and absence are both falsy. */
  function OrElse(a: Option<string>, b: string): (r: Option<string>)
    ensures a.Some? && a.value != "" ==> r == a
    ensures a.None? || a.value == "" ==> r == Some(b)
  {
    if a.Some? && a.value != "" then a else Some(b)
  }

  /** The record appended for a profile whose id is not stored yet. */
  function NewProfile(profile: Profile, now: string, freshId: string): Profile {
    profile.(id := OrElse(profile.id, freshId),
             createdAt := OrElse(profile.createdAt, now),
             updatedAt := Some(now))
  }

  /** The profile list that `saveProfile` writes back. */
  function SavedList(profiles: seq<Profile>, profile: Profile, now: string, freshId: string): (r: seq<Profile>)
    ensures |r| == |profiles| || |r| == |profiles| + 1
  {
    match FirstIndexOf(profiles, profile.id)
    case Some(k) => profiles[k := profile]
    case None => profiles + [NewProfile(profile, now, freshId)]
  }

  /** The list `getAllProfiles` returns, defaulting to the empty list. */
  function GetAllProfiles(storage: LocalStorage): (r: Value)
    reads storage
    ensures r == ProfileList([]) || (!storage.failing && ProfilesKey in storage.items && storage.items[ProfilesKey] == Json(r))
    ensures !storage.failing && ProfilesKey in storage.items && storage.items[ProfilesKey].Json? ==>
      r == storage.items[ProfilesKey].value
  {
    GetFromLocalStorage(storage, ProfilesKey, ProfileList([]))
  }

  /**
   * `saveProfile(profile)`, with the clock readings `Date.now()` and
   * `new Date().toISOString()` passed in as `freshId` and `now`. The stored
   * value must be a list: on anything else `findIndex` throws and the call
   * returns false.
   */
  method SaveProfile(storage: LocalStorage, profile: Profile, now: string, freshId: string) returns (ok: bool)
    modifies storage
    ensures storage.failing == old(storage.failing)
    ensures ok <==> !old(storage.failing) && old(GetAllProfiles(storage)).ProfileList?
    ensures ok ==> storage.items == old(storage.items)[ProfilesKey := Json(ProfileList(
                     SavedList(old(GetAllProfiles(storage)).profiles, profile, now, freshId)))]
    ensures !ok ==> storage.items == old(storage.items)
  {
    var stored := GetAllProfiles(storage);
    if !stored.ProfileList? {
      return false;
    }
    var profiles := stored.profiles;
    var existingIndex := FirstIndexOf(profiles, profile.id);
    if existingIndex.Some? {
      profiles := profiles[existingIndex.value := profile];
    } else {
      profiles := profiles + [NewProfile(profile, now, freshId)];
    }
    ok := SaveToLocalStorage(storage, ProfilesKey, ProfileList(profiles));
  }

  /** What `getProfileById` yields: a profile, `null`, or a thrown error when the stored value is not a list. */
  datatype ProfileLookup = Found(profile: Profile) | NotFound | Thrown

  /** `getProfileById(id)`: the first stored profile with the id, or `null`. */
  function GetProfileById(storage: LocalStorage, id: Option<string>): (r: ProfileLookup)
    reads storage
    ensures r.Thrown? <==> !GetAllProfiles(storage).ProfileList?
    ensures r.NotFound? <==> GetAllProfiles(storage).ProfileList? && !HasId(GetAllProfiles(storage).profiles, id)
    ensures r.Found? ==> r.profile.id == id
    ensures r.Found? ==>
      exists k :: 0 <= k < |GetAllProfiles(storage).profiles| && GetAllProfiles(storage).profiles[k] == r.profile
        && forall i :: 0 <= i < k ==> GetAllProfiles(storage).profiles[i].id != id
  {
    match GetAllProfiles(storage)
    case ProfileList(profiles) =>
      (match FirstIndexOf(profiles, id)
       case Some(k) => Found(profiles[k])
       case None => NotFound)
    case _ => Thrown
  }

  /**
   * `deleteProfile(id)`: false and nothing written when no stored profile has
   * the id (or the store throws, or the stored value is not a list); otherwise
   * the list without every profile with the id is written back.
   */
  method DeleteProfile(storage: LocalStorage, id: Option<string>) returns (ok: bool)
    modifies storage
    ensures storage.failing == old(storage.failing)
    ensures ok <==> !old(storage.failing) && old(GetAllProfiles(storage)).ProfileList?
                    && HasId(old(GetAllProfiles(storage)).profiles, id)
    ensures ok ==> storage.items == old(storage.items)[ProfilesKey := Json(ProfileList(
                     WithoutId(old(GetAllProfiles(storage)).profiles, id)))]
    ensures !ok ==> storage.items == old(storage.items)
    ensures ok ==> GetProfileById(storage, id).NotFound?
  {
    var stored := GetAllProfiles(storage);
    if !stored.ProfileList? {
      return false;
    }
    var profiles := stored.profiles;
    var updatedProfiles := WithoutId(profiles, id);
    WithoutIdShrinks(profiles, id);
    if |profiles| == |updatedProfiles| {
      return false;
    }
    ok := SaveToLocalStorage(storage, ProfilesKey, ProfileList(updatedProfiles));
    if ok {
      forall p | p in updatedProfiles
        ensures p.id != id
      {
        WithoutIdMembers(profiles, id, p);
      }
    }
  }

  /** `getSettings(defaultSettings)`: the stored settings or the default. */
  function GetSettings(storage: LocalStorage, defaultSettings: Value): (r: Value)
    reads storage
    ensures r == defaultSettings || (!storage.failing && SettingsKey in storage.items && storage.items[SettingsKey] == Json(r))
    ensures !storage.failing && SettingsKey in storage.items && storage.items[SettingsKey].Json? ==>
      r == storage.items[SettingsKey].value
  {
    GetFromLocalStorage(storage, SettingsKey, defaultSettings)
  }

  /**
   * Saving under a stored id overwrites only the first profile with that id,
   * in place: the length is kept, every other entry is kept, and `updatedAt`
   * is whatever the caller passed.
   */
  lemma SaveExistingOverwritesFirst(profiles: seq<Profile>, profile: Profile, now: string, freshId: string, k: nat)
    requires k < |profiles| && profiles[k].id == profile.id
    requires forall i :: 0 <= i < k ==> profiles[i].id != profile.id
    ensures var r := SavedList(profiles, profile, now, freshId);
      && |r| == |profiles| && r[k] == profile && r[k].updatedAt == profile.updatedAt
      && forall i :: 0 <= i < |r| && i != k ==> r[i] == profiles[i]
  {
    FirstIndexAt(profiles, profile.id, k);
  }

  /**
   * Saving under an id that is not stored appends one profile at the end that
   * keeps a truthy id and creation time, takes generated ones otherwise, and
   * always records `now` as the update time.
   */
  lemma SaveFreshAppends(profiles: seq<Profile>, profile: Profile, now: string, freshId: string)
    requires !HasId(profiles, profile.id)
    ensures var r := SavedList(profiles, profile, now, freshId);
      && |r| == |profiles| + 1 && r[..|profiles|] == profiles
      && r[|profiles|].birthData == profile.birthData
      && r[|profiles|].updatedAt == Some(now)
      && (profile.id.Some? && profile.id.value != "" ==> r[|profiles|].id == profile.id)
      && (profile.id.None? || profile.id.value == "" ==> r[|profiles|].id == Some(freshId))
      && (profile.createdAt.Some? && profile.createdAt.value != "" ==> r[|profiles|].createdAt == profile.createdAt)
      && (profile.createdAt.None? || profile.createdAt.value == "" ==> r[|profiles|].createdAt == Some(now))
  {
    var r := SavedList(profiles, profile, now, freshId);
    assert r == profiles + [NewProfile(profile, now, freshId)];
  }

  /** A profile without an id overwrites the first stored profile that has no id either. */
  lemma IdlessMatchesIdless(profiles: seq<Profile>, profile: Profile, now: string, freshId: string, k: nat)
    requires profile.id.None?
    requires k < |profiles| && profiles[k].id.None?
    requires forall i :: 0 <= i < k ==> profiles[i].id.Some?
    ensures SavedList(profiles, profile, now, freshId) == profiles[k := profile]
  {
    SaveExistingOverwritesFirst(profiles, profile, now, freshId, k);
  }

  /**
   * After a save the saved record is what a lookup by its id finds, provided
   * a generated id does not collide with a stored one.
   */
  lemma SavedProfileIsFound(profiles: seq<Profile>, profile: Profile, now: string, freshId: string)
    requires HasId(profiles, profile.id) || (profile.id.Some? && profile.id.value != "") || !HasId(profiles, Some(freshId))
    ensures var r := SavedList(profiles, profile, now, freshId);
      var saved := if HasId(profiles, profile.id) then profile else NewProfile(profile, now, freshId);
      && saved in r
      && FirstIndexOf(r, saved.id).Some? && r[FirstIndexOf(r, saved.id).value] == saved
  {
    var r := SavedList(profiles, profile, now, freshId);
    match FirstIndexOf(profiles, profile.id)
    case Some(k) =>
      FirstIndexAt(r, profile.id, k);
    case None =>
      var saved := NewProfile(profile, now, freshId);
      assert r[|profiles|] == saved;
      forall i | 0 <= i < |profiles|
        ensures r[i].id != saved.id
      {
        assert r[i] == profiles[i];
      }
      FirstIndexAt(r, saved.id, |profiles|);
  }

  /** `findIndex` returns the index of a matching profile that has no match before it. */
  lemma FirstIndexAt(profiles: seq<Profile>, id: Option<string>, k: nat)
    requires k < |profiles| && profiles[k].id == id
    requires forall i :: 0 <= i < k ==> profiles[i].id != id
    ensures FirstIndexOf(profiles, id) == Some(k)
  {
    assert HasId(profiles, id);
    var f := FirstIndexOf(profiles, id);
    assert !(f.value < k);
    assert !(k < f.value);
  }

  /** Saving a profile without an id twice, when no stored profile lacks an id, stores two copies. */
  lemma SaveIdlessTwiceDuplicates(profiles: seq<Profile>, profile: Profile, now: string, id1: string, id2: string)
    requires profile.id.None? && !HasId(profiles, None)
    ensures var once := SavedList(profiles, profile, now, id1);
      SavedList(once, profile, now, id2)
        == profiles + [NewProfile(profile, now, id1), NewProfile(profile, now, id2)]
  {
    var once := SavedList(profiles, profile, now, id1);
    assert once == profiles + [NewProfile(profile, now, id1)];
    assert !HasId(once, None) by {
      forall i | 0 <= i < |once|
        ensures once[i].id.Some?
      {
        if i < |profiles| {
          assert once[i] == profiles[i];
        }
      }
    }
  }
}
