/** Code carryover between two activities of a skill map: which earlier
    project to carry from, and how the new project's files are rebuilt
    from the two projects (`mergeProjectCode`). */
module CodeCarryover {
  import opened Wrappers
  import opened Text
  import opened Jres
  import opened JresMerge
  import JresMergeProps

  /** The three program files the carryover copies wholesale. */
  const MAIN_TS: string := "main.ts"
  const MAIN_PY: string := "main.py"
  const MAIN_BLOCKS: string := "main.blocks"

  predicate IsMainFile(f: string) {
    f == MAIN_TS || f == MAIN_PY || f == MAIN_BLOCKS
  }

  /** A project's files. The two JRES files are held decoded, `None`
      standing for an absent or empty file; every other file is text. */
  datatype Project = Project(files: map<string, string>, tilemapJres: Option<Manifest>, imagesJres: Option<Manifest>) {
    predicate Valid() {
      && (tilemapJres.Some? ==> tilemapJres.value.Valid())
      && (imagesJres.Some? ==> imagesJres.value.Valid())
    }
  }

  /** `carryoverCode ? previous[f] : next[f]`, for one main file: an
      absent file (undefined) is not written. */
  function TakeFile(files: map<string, string>, from: map<string, string>, f: string): (r: map<string, string>)
    ensures f in r <==> f in from
    ensures f in r ==> r[f] == from[f]
    ensures forall g :: g != f ==> (g in r <==> g in files) && (g in r ==> r[g] == files[g])
  {
    if f in from then files[f := from[f]] else files - {f}
  }

  /** The text files of the rebuilt project: the new project's files, with
      the three main files taken from the previous project when carrying
      over code. */
  function MergedFiles(previous: map<string, string>, next: map<string, string>, carryoverCode: bool): (r: map<string, string>)
    ensures forall f :: IsMainFile(f) ==>
      var source := if carryoverCode then previous else next;
      (f in r <==> f in source) && (f in r ==> r[f] == source[f])
    ensures forall f :: !IsMainFile(f) ==> (f in r <==> f in next) && (f in r ==> r[f] == next[f])
  {
    if carryoverCode then TakeFile(TakeFile(TakeFile(next, previous, MAIN_TS), previous, MAIN_PY), previous, MAIN_BLOCKS)
    else next
  }

  /** `mergeProjectCode(previousProject, newProject, carryoverCode)`: the
      tilemap catalog is merged first, then the image catalog, each with
      the previous project as winner when carrying over code and the new
      project as winner otherwise. A merge that fails (no defaults in the
      winner) fails the whole call. */
  function MergeProjectCode(previous: Project, next: Project, carryoverCode: bool): (r: Result<Project, MergeError>)
    requires previous.Valid() && next.Valid()
  {
    var tilemap := if carryoverCode then Merge(next.tilemapJres, previous.tilemapJres)
                   else Merge(previous.tilemapJres, next.tilemapJres);
    if tilemap.Failure? then Failure(tilemap.error)
    else
      var images := if carryoverCode then Merge(next.imagesJres, previous.imagesJres)
                    else Merge(previous.imagesJres, next.imagesJres);
      if images.Failure? then Failure(images.error)
      else Success(Project(MergedFiles(previous.files, next.files, carryoverCode), tilemap.value, images.value))
  }

  /** Which side wins the asset merge. */
  function Winner(previous: Project, next: Project, carryoverCode: bool): Project {
    if carryoverCode then previous else next
  }

  function Loser(previous: Project, next: Project, carryoverCode: bool): Project {
    if carryoverCode then next else previous
  }

  /** The winner's catalog `w` is kept in the merged catalog `r`: every
      entry unchanged, its keys first. */
  ghost predicate KeepsCatalog(w: Option<Manifest>, r: Option<Manifest>) {
    w.Some? ==>
      && r.Some?
      && w.value.keys <= r.value.keys
      && forall k :: k in w.value.entries ==> k in r.value.entries && r.value.entries[k] == w.value.entries[k]
  }

  /** One catalog merge keeps the winner's catalog. */
  lemma MergeKeepsCatalog(loser: Option<Manifest>, winner: Option<Manifest>)
    requires loser.Some? ==> loser.value.Valid()
    requires winner.Some? ==> winner.value.Valid()
    requires Merge(loser, winner).Success?
    ensures KeepsCatalog(winner, Merge(loser, winner).value)
  {
    if loser.Some? && winner.Some? {
      JresMergeProps.MergeKeepsWinner(loser.value, winner.value);
    }
  }

  /** Rebuilding fails exactly when one of the two catalog merges, with
      both catalogs present, has a winner catalog lacking a `"*"` entry: the
      only merge that reads a field of a missing value. A `"*"` entry that
      is a plain string or lacks a MIME type does not fail; it gives an
      absent default MIME type. */
  lemma MergeProjectCodeFails(previous: Project, next: Project, carryoverCode: bool)
    requires previous.Valid() && next.Valid()
    ensures var w := Winner(previous, next, carryoverCode);
      var l := Loser(previous, next, carryoverCode);
      MergeProjectCode(previous, next, carryoverCode).Failure? <==>
        || (l.tilemapJres.Some? && w.tilemapJres.Some? && !HasDefaults(w.tilemapJres.value))
        || (l.imagesJres.Some? && w.imagesJres.Some? && !HasDefaults(w.imagesJres.value))
  {
  }

  /** A rebuilt project has the text files `MergedFiles` describes, and
      both of the winner's catalogs survive in it, entry for entry. */
  lemma MergeProjectCodeKeepsWinnerAssets(previous: Project, next: Project, carryoverCode: bool)
    requires previous.Valid() && next.Valid()
    requires MergeProjectCode(previous, next, carryoverCode).Success?
    ensures var r := MergeProjectCode(previous, next, carryoverCode).value;
      var w := Winner(previous, next, carryoverCode);
      && r.files == MergedFiles(previous.files, next.files, carryoverCode)
      && KeepsCatalog(w.tilemapJres, r.tilemapJres)
      && KeepsCatalog(w.imagesJres, r.imagesJres)
  {
    var w := Winner(previous, next, carryoverCode);
    var l := Loser(previous, next, carryoverCode);
    MergeKeepsCatalog(l.tilemapJres, w.tilemapJres);
    MergeKeepsCatalog(l.imagesJres, w.imagesJres);
  }

  /** A project without catalogs merged into one: the winner's catalogs
      come through unchanged, and so does the loser's when the winner has
      none. */
  lemma MergeWithEmptyCatalogs(previous: Project, next: Project, carryoverCode: bool)
    requires previous.Valid() && next.Valid()
    requires Loser(previous, next, carryoverCode).tilemapJres.None?
    requires Loser(previous, next, carryoverCode).imagesJres.None?
    ensures var w := Winner(previous, next, carryoverCode);
      MergeProjectCode(previous, next, carryoverCode) ==
        Success(Project(MergedFiles(previous.files, next.files, carryoverCode), w.tilemapJres, w.imagesJres))
  {
  }

  // ------------------------------------------------------------ which project

  /** What the carryover reads of an earlier activity's state. An absent
      optional field is `None`; `maxSteps === currentStep` holds when both
      are absent. */
  datatype ActivityState = ActivityState(isCompleted: bool, maxSteps: Option<int>, currentStep: Option<int>, headerId: Option<string>)

  /** `state?.isCompleted && state.maxSteps === state.currentStep`. */
  predicate Finished(state: Option<ActivityState>) {
    state.Some? && state.value.isCompleted && state.value.maxSteps == state.value.currentStep
  }

  /** `previous.find(...)`: the position of the first finished state. */
  function FirstFinished(states: seq<Option<ActivityState>>): (r: Option<nat>)
    ensures r.Some? ==> r.value < |states| && Finished(states[r.value])
    ensures r.Some? ==> forall j :: 0 <= j < r.value ==> !Finished(states[j])
    ensures r.None? <==> forall j :: 0 <= j < |states| ==> !Finished(states[j])
  {
    if |states| == 0 then None
    else if Finished(states[0]) then Some(0)
    else
      match FirstFinished(states[1..])
      case None => None
      case Some(i) => Some(i + 1)
  }

  /** The header id of the project to carry from. */
  function PreviousHeaderId(states: seq<Option<ActivityState>>): Option<string> {
    match FirstFinished(states)
    case None => None
    case Some(i) => states[i].value.headerId
  }

  /** The pair (new project, previous project) of header ids the carryover
      works on, or `None` when either is absent or empty and nothing is
      done. */
  function CarryoverHeaders(headerId: Option<string>, states: seq<Option<ActivityState>>): (r: Option<(string, string)>)
    ensures r.Some? <==> Truthy(headerId) && Truthy(PreviousHeaderId(states))
    ensures r.Some? ==> r.value.0 == headerId.value && r.value.0 != ""
    ensures r.Some? ==> exists i ::
      && 0 <= i < |states| && Finished(states[i])
      && states[i].value.headerId == Some(r.value.1) && r.value.1 != ""
      && forall j :: 0 <= j < i ==> !Finished(states[j])
  {
    var previousHeaderId := PreviousHeaderId(states);
    if Truthy(headerId) && Truthy(previousHeaderId) then Some((headerId.value, previousHeaderId.value)) else None
  }

  /** Only the first finished state counts: a later finished state with a
      header id is not used when the first one has none. */
  lemma FirstFinishedDecides(states: seq<Option<ActivityState>>, i: nat)
    requires i < |states| && Finished(states[i]) && states[i].value.headerId.None?
    requires forall j :: 0 <= j < i ==> !Finished(states[j])
    ensures forall h :: CarryoverHeaders(h, states).None?
  {
    assert FirstFinished(states) == Some(i);
  }
}
