/**
 * The application state and its reducer (src/context/ChartContext.js): a pure
 * transition function from a state and an action to the next state. Action
 * payloads are typed per action; any other action type is `Unknown`.
 */
module ChartContext {
  import opened Wrappers
  import opened Entities
  import opened ProfileLists

  datatype State = State(
    birthData: Option<BirthData>,
    chartData: Option<ChartData>,
    transitData: Option<TransitData>,
    savedProfiles: seq<Profile>,
    loading: bool,
    error: Option<string>)

  datatype Action =
    | SetBirthData(birthData: Option<BirthData>)
    | SetChartData(chartData: Option<ChartData>)
    | SetTransitData(transitData: Option<TransitData>)
    | SaveProfile(profile: Profile)
    | DeleteProfile(id: Option<string>)
    | LoadProfile(birthData: Option<BirthData>)
    | SetLoading(loading: bool)
    | SetError(error: Option<string>)
    | LoadSavedProfiles(profiles: seq<Profile>)
    | Unknown(kind: string)

  /** initialState: nothing entered, nothing computed, nothing saved, idle, no error. */
  function InitialState(): (s: State)
    ensures s.savedProfiles == [] && !s.loading && s.error.None?
    ensures s.birthData.None? && s.chartData.None? && s.transitData.None?
  {
    State(None, None, None, [], false, None)
  }

  /**
   * chartReducer: every action writes only the fields its table entry lists,
   * and an action of an unknown type returns the state unchanged.
   */
  function ChartReducer(s: State, a: Action): (r: State)
    ensures AgreeOutside(s, r, Writes(a))
    ensures a.Unknown? ==> r == s
    ensures a.SetTransitData? ==> r.transitData == a.transitData
    ensures a.SetLoading? ==> r.loading == a.loading
    ensures a.LoadSavedProfiles? ==> r.savedProfiles == a.profiles
  {
    match a
    case SetBirthData(b) => s.(birthData := b, loading := true, error := None)
    case SetChartData(c) => s.(chartData := c, loading := false)
    case SetTransitData(t) => s.(transitData := t)
    case SaveProfile(p) =>
      s.(savedProfiles :=
           if HasId(s.savedProfiles, p.id) then ReplaceId(s.savedProfiles, p.id, p)
           else s.savedProfiles + [p])
    case DeleteProfile(id) => s.(savedProfiles := WithoutId(s.savedProfiles, id))
    case LoadProfile(b) => s.(birthData := b, loading := true, error := None)
    case SetLoading(l) => s.(loading := l)
    case SetError(e) => s.(error := e, loading := false)
    case LoadSavedProfiles(ps) => s.(savedProfiles := ps)
    case Unknown(_) => s
  }

  /** The fields of the state, to say which ones an action may write. */
  datatype Field = BirthDataField | ChartDataField | TransitDataField | SavedProfilesField | LoadingField | ErrorField

  /** The fields each action writes, as a table independent of the reducer. */
  function Writes(a: Action): set<Field> {
    match a
    case SetBirthData(_) => {BirthDataField, LoadingField, ErrorField}
    case SetChartData(_) => {ChartDataField, LoadingField}
    case SetTransitData(_) => {TransitDataField}
    case SaveProfile(_) => {SavedProfilesField}
    case DeleteProfile(_) => {SavedProfilesField}
    case LoadProfile(_) => {BirthDataField, LoadingField, ErrorField}
    case SetLoading(_) => {LoadingField}
    case SetError(_) => {ErrorField, LoadingField}
    case LoadSavedProfiles(_) => {SavedProfilesField}
    case Unknown(_) => {}
  }

  /** `s` and `t` agree on every field outside `w`. */
  predicate AgreeOutside(s: State, t: State, w: set<Field>) {
    && (BirthDataField !in w ==> t.birthData == s.birthData)
    && (ChartDataField !in w ==> t.chartData == s.chartData)
    && (TransitDataField !in w ==> t.transitData == s.transitData)
    && (SavedProfilesField !in w ==> t.savedProfiles == s.savedProfiles)
    && (LoadingField !in w ==> t.loading == s.loading)
    && (ErrorField !in w ==> t.error == s.error)
  }

  /** Entering birth data or loading a profile starts a computation: loading on, error cleared. */
  lemma StartsComputation(s: State, a: Action)
    requires a.SetBirthData? || a.LoadProfile?
    ensures var t := ChartReducer(s, a);
      t.birthData == a.birthData && t.loading && t.error.None?
  {
  }

  /** Delivering a chart or an error ends the computation. */
  lemma EndsComputation(s: State, a: Action)
    requires a.SetChartData? || a.SetError?
    ensures !ChartReducer(s, a).loading
    ensures a.SetChartData? ==> ChartReducer(s, a).chartData == a.chartData
    ensures a.SetError? ==> ChartReducer(s, a).error == a.error
  {
  }

  /** Saving a profile whose id is not yet present appends it at the end. */
  lemma SaveFreshAppends(s: State, p: Profile)
    requires !HasId(s.savedProfiles, p.id)
    ensures ChartReducer(s, SaveProfile(p)).savedProfiles == s.savedProfiles + [p]
    ensures |ChartReducer(s, SaveProfile(p)).savedProfiles| == |s.savedProfiles| + 1
  {
  }

  /**
   * Saving a profile whose id is present replaces every profile with that id,
   * keeping the length and the position of every other profile.
   */
  lemma SaveExistingReplaces(s: State, p: Profile)
    requires HasId(s.savedProfiles, p.id)
    ensures var t := ChartReducer(s, SaveProfile(p)).savedProfiles;
      && |t| == |s.savedProfiles|
      && (forall i :: 0 <= i < |t| && s.savedProfiles[i].id == p.id ==> t[i] == p)
      && (forall i :: 0 <= i < |t| && s.savedProfiles[i].id != p.id ==> t[i] == s.savedProfiles[i])
  {
  }

  /** After a save the payload is stored, and it is the only profile stored under its id. */
  lemma SaveStores(s: State, p: Profile)
    ensures var t := ChartReducer(s, SaveProfile(p)).savedProfiles;
      p in t && forall q :: q in t && q.id == p.id ==> q == p
  {
    var t := ChartReducer(s, SaveProfile(p)).savedProfiles;
    if HasId(s.savedProfiles, p.id) {
      var i :| 0 <= i < |s.savedProfiles| && s.savedProfiles[i].id == p.id;
      assert t[i] == p;
    } else {
      assert t[|t| - 1] == p;
    }
  }

  /** Saving the same profile twice is the same as saving it once. */
  lemma SaveIdempotent(s: State, p: Profile)
    ensures var t := ChartReducer(s, SaveProfile(p));
      ChartReducer(t, SaveProfile(p)) == t
  {
    var t := ChartReducer(s, SaveProfile(p));
    SaveStores(s, p);
    var k :| 0 <= k < |t.savedProfiles| && t.savedProfiles[k] == p;
    assert HasId(t.savedProfiles, p.id);
    if HasId(s.savedProfiles, p.id) {
      ReplaceIdIdempotent(s.savedProfiles, p.id, p);
    } else {
      assert ReplaceId(t.savedProfiles, p.id, p) == t.savedProfiles;
    }
  }

  /** Deleting keeps exactly the profiles whose id differs, and does not reorder them. */
  lemma DeleteKeepsOthers(s: State, id: Option<string>, p: Profile)
    ensures var t := ChartReducer(s, DeleteProfile(id)).savedProfiles;
      && (p in t <==> p in s.savedProfiles && p.id != id)
      && forall a, b :: s.savedProfiles == a + b ==> t == WithoutId(a, id) + WithoutId(b, id)
  {
    WithoutIdMembers(s.savedProfiles, id, p);
    forall a, b | s.savedProfiles == a + b
      ensures WithoutId(s.savedProfiles, id) == WithoutId(a, id) + WithoutId(b, id)
    {
      WithoutIdConcat(a, b, id);
    }
  }

  /** Deleting an id that no saved profile has leaves the list equal. */
  lemma DeleteAbsent(s: State, id: Option<string>)
    requires !HasId(s.savedProfiles, id)
    ensures ChartReducer(s, DeleteProfile(id)) == s
  {
    WithoutAbsentId(s.savedProfiles, id);
  }

  /** Saving a profile under a fresh id and then deleting that id restores the saved list. */
  lemma SaveThenDeleteRestores(s: State, p: Profile)
    requires !HasId(s.savedProfiles, p.id)
    ensures ChartReducer(ChartReducer(s, SaveProfile(p)), DeleteProfile(p.id)) == s
  {
    WithoutIdConcat(s.savedProfiles, [p], p.id);
    WithoutAbsentId(s.savedProfiles, p.id);
  }

  /** Deleting after saving under an existing id removes the same profiles as deleting alone. */
  lemma SaveExistingThenDelete(s: State, p: Profile)
    requires HasId(s.savedProfiles, p.id)
    ensures ChartReducer(ChartReducer(s, SaveProfile(p)), DeleteProfile(p.id)).savedProfiles
         == ChartReducer(s, DeleteProfile(p.id)).savedProfiles
  {
    WithoutReplacedId(s.savedProfiles, p.id, p);
  }
}
