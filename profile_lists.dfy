/**
 * Operations on lists of saved profiles keyed by `id`, shared by the chart
 * reducer and the profile store. Ids compare with `===`, so an absent id
 * (`None`) matches every other profile whose id is absent.
 */
module ProfileLists {
  import opened Wrappers
  import opened Entities

  /** `profiles.some(p => p.id === id)`. */
  predicate HasId(profiles: seq<Profile>, id: Option<string>) {
    exists i :: 0 <= i < |profiles| && profiles[i].id == id
  }

  /** `profiles.filter(p => p.id !== id)`. */
  function WithoutId(profiles: seq<Profile>, id: Option<string>): (r: seq<Profile>)
    ensures |r| <= |profiles|
  {
    if profiles == [] then []
    else (if profiles[0].id == id then [] else [profiles[0]]) + WithoutId(profiles[1..], id)
  }

  /** `profiles.map(p => p.id === id ? profile : p)`. */
  function ReplaceId(profiles: seq<Profile>, id: Option<string>, profile: Profile): (r: seq<Profile>)
    ensures |r| == |profiles|
  {
    seq(|profiles|, i requires 0 <= i < |profiles| => if profiles[i].id == id then profile else profiles[i])
  }

  /** `profiles.findIndex(p => p.id === id)`, with `None` for -1. */
  function FirstIndexOf(profiles: seq<Profile>, id: Option<string>): (r: Option<nat>)
    ensures r.Some? ==> r.value < |profiles| && profiles[r.value].id == id
    ensures r.Some? ==> forall i :: 0 <= i < r.value ==> profiles[i].id != id
    ensures r.None? <==> !HasId(profiles, id)
  {
    if profiles == [] then None
    else if profiles[0].id == id then Some(0)
    else match FirstIndexOf(profiles[1..], id)
      case None => None
      case Some(k) => Some(k + 1)
  }

  /** Filtering keeps exactly the profiles whose id differs. */
  lemma {:induction false} WithoutIdMembers(profiles: seq<Profile>, id: Option<string>, p: Profile)
    ensures p in WithoutId(profiles, id) <==> p in profiles && p.id != id
  {
    if profiles != [] {
      WithoutIdMembers(profiles[1..], id, p);
      assert profiles == [profiles[0]] + profiles[1..];
    }
  }

  /** Filtering distributes over concatenation, so it keeps the order of what it keeps. */
  lemma {:induction false} WithoutIdConcat(a: seq<Profile>, b: seq<Profile>, id: Option<string>)
    ensures WithoutId(a + b, id) == WithoutId(a, id) + WithoutId(b, id)
  {
    if a == [] {
      assert a + b == b;
    } else {
      assert (a + b)[1..] == a[1..] + b;
      WithoutIdConcat(a[1..], b, id);
    }
  }

  /** Filtering out an id that no profile has leaves the list equal. */
  lemma {:induction false} WithoutAbsentId(profiles: seq<Profile>, id: Option<string>)
    requires !HasId(profiles, id)
    ensures WithoutId(profiles, id) == profiles
  {
    if profiles != [] {
      assert !HasId(profiles[1..], id) by {
        forall i | 0 <= i < |profiles[1..]|
          ensures profiles[1..][i].id != id
        {
          assert profiles[1..][i] == profiles[i + 1];
        }
      }
      WithoutAbsentId(profiles[1..], id);
    }
  }

  /** Filtering removes something exactly when some profile has the id. */
  lemma {:induction false} WithoutIdShrinks(profiles: seq<Profile>, id: Option<string>)
    ensures |WithoutId(profiles, id)| < |profiles| <==> HasId(profiles, id)
  {
    if profiles != [] {
      WithoutIdShrinks(profiles[1..], id);
      if HasId(profiles[1..], id) {
        var i :| 0 <= i < |profiles[1..]| && profiles[1..][i].id == id;
        assert profiles[i + 1].id == id;
      }
      if HasId(profiles, id) && profiles[0].id != id {
        var i :| 0 <= i < |profiles| && profiles[i].id == id;
        assert profiles[1..][i - 1].id == id;
      }
    }
  }

  /** Replacing the profiles with an id and then filtering that id out is the same as filtering alone. */
  lemma {:induction false} WithoutReplacedId(profiles: seq<Profile>, id: Option<string>, profile: Profile)
    requires profile.id == id
    ensures WithoutId(ReplaceId(profiles, id, profile), id) == WithoutId(profiles, id)
  {
    if profiles != [] {
      var r := ReplaceId(profiles, id, profile);
      assert r[1..] == ReplaceId(profiles[1..], id, profile);
      WithoutReplacedId(profiles[1..], id, profile);
    }
  }

  /** Replacing by a profile carrying the same id a second time changes nothing. */
  lemma ReplaceIdIdempotent(profiles: seq<Profile>, id: Option<string>, profile: Profile)
    requires profile.id == id
    ensures ReplaceId(ReplaceId(profiles, id, profile), id, profile) == ReplaceId(profiles, id, profile)
  {
  }
}
