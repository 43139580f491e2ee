/** `parseSkillMap`: cuts the text into sections, takes page metadata from
    each `#` section (the last one wins) and builds one map from every `##`
    section together with all the sections up to the next `##`, of any
    kind. A `#` section inside a map is therefore also one of its nodes.

    `Parse` states the result as the source's loop does; `PageOf` states it
    declaratively, map by map, and `ParseIsPageOf` proves the two equal. */
module SkillMapParser {
  import opened Wrappers
  import opened SkillMapTypes
  import opened Sections
  import opened Inflate
  import opened SkillMapGraph

  /** How one map is built from its `##` section and the sections after
      it: `BuildMap` for the source. The page-level fold below does not
      depend on what the builder does. */
  type Builder = (Section, seq<Section>) -> Result<SkillMap, ParseError>

  /** `build` builds each map as `buildMapFromSections` does. */
  ghost predicate IsBuildMap(build: Builder) {
    forall h, s {:trigger BuildMap(h, s)} :: build(h, s) == BuildMap(h, s)
  }

  /** What `parseSkillMap` returns. */
  datatype Page = Page(maps: seq<SkillMap>, metadata: Option<PageMetadata>)

  /** The variables of `parseSkillMap`'s loop: the index of the current
      `##` section (`start`, -1 in the source before the first), the maps
      built so far, and the metadata. */
  datatype Progress = Progress(start: Option<nat>, parsed: seq<SkillMap>, metadata: Option<PageMetadata>)

  /** One turn of the loop, on section `i`. */
  function Step(build: Builder, sections: seq<Section>, p: Progress, i: nat): (r: Result<Progress, ParseError>)
    requires i < |sections| && (p.start.Some? ==> p.start.value < i)
  {
    match sections[i].headerKind
    case Single => Success(p.(metadata := Some(InflateMetadata(sections[i]))))
    case Double =>
      if p.start.Some? then
        match build(sections[p.start.value], sections[p.start.value + 1..i])
        case Failure(e) => Failure(e)
        case Success(m) => Success(p.(start := Some(i), parsed := p.parsed + [m]))
      else Success(p.(start := Some(i)))
    case Triple => Success(p)
  }

  /** The loop over the first `n` sections. */
  function Run(build: Builder, sections: seq<Section>, n: nat): (r: Result<Progress, ParseError>)
    requires n <= |sections|
    ensures r.Success? && r.value.start.Some? ==> r.value.start.value < n
    ensures r.Success? && r.value.start.None? ==> r.value.parsed == []
  {
    if n == 0 then Success(Progress(None, [], None))
    else
      match Run(build, sections, n - 1)
      case Failure(e) => Failure(e)
      case Success(p) => Step(build, sections, p, n - 1)
  }

  /** `parseSkillMap` on the sections: the loop, then the map of the last
      `##` section. Without any `##` section there is no map header. */
  function ParseSections(build: Builder, sections: seq<Section>): (r: Result<Page, ParseError>) {
    match Run(build, sections, |sections|)
    case Failure(e) => Failure(e)
    case Success(p) =>
      if p.start.None? then Failure(NoMapHeader)
      else
        match build(sections[p.start.value], sections[p.start.value + 1..])
        case Failure(e) => Failure(e)
        case Success(m) => Success(Page(p.parsed + [m], p.metadata))
  }

  function Parse(text: string): (r: Result<Page, ParseError>) {
    ParseSections(BuildMap, SectionsOf(text))
  }

  method ParseSkillMap(text: string) returns (r: Result<Page, ParseError>)
    ensures r == Parse(text)
  {
    var sections := GetSectionsFromText(text);
    r := ParsePage(sections, BuildMap);
  }

  /** The loop of `parseSkillMap` over the sections. `build` is
      `BuildMap`, named apart so that the proof of the loop does not look
      into how a map is built. */
  method ParsePage(sections: seq<Section>, ghost build: Builder) returns (r: Result<Page, ParseError>)
    requires IsBuildMap(build)
    ensures r == ParseSections(build, sections)
  {
    var parsed: seq<SkillMap> := [];
    var metadata: Option<PageMetadata> := None;
    var start: int := -1;
    ghost var p := Progress(None, [], None);
    for i := 0 to |sections|
      invariant -1 <= start < i
      invariant start <= 0 ==> parsed == []
      invariant Run(build, sections, i) == Success(p)
      invariant p.start == (if start >= 0 then Some(start as nat) else None)
      invariant p.parsed == parsed && p.metadata == metadata
    {
      if sections[i].headerKind == Single {
        metadata := Some(InflateMetadata(sections[i]));
        OtherTurn(build, sections, i, p);
        p := p.(metadata := metadata);
      } else if sections[i].headerKind == Double {
        if start >= 0 {
          var m := Build(build, sections[start], sections[start + 1..i]);
          ClosingTurn(build, sections, i, start, p.parsed, p.metadata);
          if m.Failure? {
            ClosingFails(build, sections, i, start, p.parsed, p.metadata);
            return Failure(m.error);
          }
          parsed := parsed + [m.value];
        } else {
          OpeningTurn(build, sections, i, p);
        }
        start := i;
        p := p.(start := Some(i), parsed := parsed);
      } else {
        OtherTurn(build, sections, i, p);
      }
    }
    r := PushLastMap(build, sections, start, parsed, metadata);
  }

  /** The end of `parseSkillMap`, after the loop: the map of the last
      `##` section is built and added. */
  method PushLastMap(ghost build: Builder, sections: seq<Section>, start: int, parsed: seq<SkillMap>, metadata: Option<PageMetadata>)
    returns (r: Result<Page, ParseError>)
    requires IsBuildMap(build)
    requires -1 <= start < |sections| && (start <= 0 ==> parsed == [])
    requires Run(build, sections, |sections|) == Success(Progress(if start >= 0 then Some(start as nat) else None, parsed, metadata))
    ensures r == ParseSections(build, sections)
  {
    LastTurn(build, sections, Progress(if start >= 0 then Some(start as nat) else None, parsed, metadata));
    var maps := parsed;
    if start > 0 || |parsed| == 0 {
      if start < 0 {
        // sections[-1] is undefined: inflating it throws.
        return Failure(NoMapHeader);
      }
      var m := Build(build, sections[start], sections[start + 1..]);
      if m.Failure? {
        return Failure(m.error);
      }
      maps := maps + [m.value];
    }
    r := Success(Page(maps, metadata));
  }

  /** `buildMapFromSections`, as the builder `build` that is `BuildMap`. */
  method Build(ghost build: Builder, header: Section, sections: seq<Section>) returns (r: Result<SkillMap, ParseError>)
    requires IsBuildMap(build)
    ensures r == build(header, sections)
  {
    r := BuildMapFromSections(header, sections);
  }

  /** A `#` section sets the metadata; a `###` section changes nothing. */
  lemma {:induction false} OtherTurn(build: Builder, sections: seq<Section>, i: nat, p: Progress)
    requires i < |sections| && sections[i].headerKind != Double
    requires Run(build, sections, i) == Success(p)
    ensures Run(build, sections, i + 1)
      == Success(if sections[i].headerKind == Single then p.(metadata := Some(InflateMetadata(sections[i]))) else p)
  {
  }

  /** The first `##` section opens a map. */
  lemma {:induction false} OpeningTurn(build: Builder, sections: seq<Section>, i: nat, p: Progress)
    requires i < |sections| && sections[i].headerKind == Double
    requires Run(build, sections, i) == Success(p) && p.start.None?
    ensures Run(build, sections, i + 1) == Success(p.(start := Some(i)))
  {
  }

  /** A later `##` section builds the open map and opens its own. */
  lemma {:induction false} ClosingTurn(build: Builder, sections: seq<Section>, i: nat, a: nat, ms: seq<SkillMap>, meta: Option<PageMetadata>)
    requires i < |sections| && sections[i].headerKind == Double
    requires Run(build, sections, i) == Success(Progress(Some(a), ms, meta))
    ensures a < i
    ensures var m := build(sections[a], sections[a + 1..i]);
      Run(build, sections, i + 1)
        == if m.Failure? then Failure(m.error) else Success(Progress(Some(i), ms + [m.value], meta))
  {
  }

  /** A map that fails to build fails the whole page. */
  lemma {:induction false} ClosingFails(build: Builder, sections: seq<Section>, i: nat, a: nat, ms: seq<SkillMap>, meta: Option<PageMetadata>)
    requires i < |sections| && sections[i].headerKind == Double
    requires Run(build, sections, i) == Success(Progress(Some(a), ms, meta)) && a < i
    requires build(sections[a], sections[a + 1..i]).Failure?
    ensures ParseSections(build, sections) == Failure(build(sections[a], sections[a + 1..i]).error)
  {
    ClosingTurn(build, sections, i, a, ms, meta);
    RunFailsFromPrefix(build, sections, i + 1);
  }

  /** After the loop: the map of the last `##` section. */
  lemma {:induction false} LastTurn(build: Builder, sections: seq<Section>, p: Progress)
    requires Run(build, sections, |sections|) == Success(p)
    ensures p.start.None? ==> ParseSections(build, sections) == Failure(NoMapHeader)
    ensures p.start.Some? ==> p.start.value < |sections|
    ensures p.start.Some? ==>
      var m := build(sections[p.start.value], sections[p.start.value + 1..]);
      ParseSections(build, sections)
        == if m.Failure? then Failure(m.error) else Success(Page(p.parsed + [m.value], p.metadata))
  {
    if p.start.Some? {
      var a := p.start.value;
      var m := build(sections[a], sections[a + 1..]);
      if m.Failure? {
        assert ParseSections(build, sections) == Failure(m.error);
      } else {
        assert ParseSections(build, sections) == Success(Page(p.parsed + [m.value], p.metadata));
      }
    }
  }

  lemma {:induction false} RunFailsFromPrefix(build: Builder, sections: seq<Section>, n: nat)
    requires n <= |sections| && Run(build, sections, n).Failure?
    ensures Run(build, sections, |sections|) == Run(build, sections, n)
    decreases |sections| - n
  {
    if n < |sections| {
      RunFailsFromPrefix(build, sections, n + 1);
    }
  }

  // ------------------------------------------------------------ map by map

  /** The positions of the `##` sections among the first `n`, in order. */
  function Doubles(sections: seq<Section>, n: nat): (d: seq<nat>)
    requires n <= |sections|
    ensures forall k :: 0 <= k < |d| ==> d[k] < n && sections[d[k]].headerKind == Double
  {
    if n == 0 then []
    else Doubles(sections, n - 1) + (if sections[n - 1].headerKind == Double then [n - 1] else [])
  }

  /** The positions of the `##` sections come in increasing order. */
  lemma {:induction false} DoublesIncrease(sections: seq<Section>, n: nat)
    requires n <= |sections|
    ensures Increasing(sections, Doubles(sections, n))
  {
    if n > 0 {
      var d := Doubles(sections, n - 1);
      DoublesIncrease(sections, n - 1);
      if sections[n - 1].headerKind == Double {
        if |d| == 0 {
          assert Doubles(sections, n) == [n - 1];
        } else {
          IncreasingAppend(sections, d, n - 1);
        }
      } else {
        assert Doubles(sections, n) == d;
      }
    }
  }

  /** The metadata of the last `#` section among the first `n`. */
  function LastMetadata(sections: seq<Section>, n: nat): (r: Option<PageMetadata>)
    requires n <= |sections|
  {
    if n == 0 then None
    else if sections[n - 1].headerKind == Single then Some(InflateMetadata(sections[n - 1]))
    else LastMetadata(sections, n - 1)
  }

  /** `LastMetadata` is that of the last `#` section, and there is none
      without a `#` section. */
  lemma {:induction false} LastMetadataIsLast(sections: seq<Section>, n: nat)
    requires n <= |sections|
    ensures LastMetadata(sections, n).None? <==> forall i :: 0 <= i < n ==> sections[i].headerKind != Single
    ensures LastMetadata(sections, n).Some? ==> exists i ::
      && 0 <= i < n && sections[i].headerKind == Single
      && LastMetadata(sections, n).value == InflateMetadata(sections[i])
      && forall j :: i < j < n ==> sections[j].headerKind != Single
  {
    if n > 0 {
      LastMetadataIsLast(sections, n - 1);
      if sections[n - 1].headerKind != Single && LastMetadata(sections, n).Some? {
        var i :| 0 <= i < n - 1 && sections[i].headerKind == Single
          && LastMetadata(sections, n - 1).value == InflateMetadata(sections[i])
          && forall j :: i < j < n - 1 ==> sections[j].headerKind != Single;
        assert forall j :: i < j < n ==> sections[j].headerKind != Single;
      }
    }
  }

  /** Positions in increasing order, each within `sections`. */
  predicate Increasing(sections: seq<Section>, d: seq<nat>)
    decreases |d|
  {
    |d| > 0 ==>
      && d[|d| - 1] < |sections|
      && (|d| > 1 ==> d[|d| - 2] < d[|d| - 1])
      && Increasing(sections, d[..|d| - 1])
  }

  /** The map of each position of `d` but the last, built from the
      sections up to the next position. */
  function Between(build: Builder, sections: seq<Section>, d: seq<nat>): (r: seq<Result<SkillMap, ParseError>>)
    requires Increasing(sections, d)
    ensures |r| == if |d| > 0 then |d| - 1 else 0
    decreases |d|
  {
    if |d| < 2 then []
    else
      var e := d[..|d| - 1];
      assert Increasing(sections, e);
      Between(build, sections, e) + [build(sections[d[|d| - 2]], sections[d[|d| - 2] + 1..d[|d| - 1]])]
  }

  /** Each closed map is built from its position up to the next one. */
  lemma {:induction false} BetweenAt(build: Builder, sections: seq<Section>, d: seq<nat>, k: nat)
    requires Increasing(sections, d) && k + 1 < |d|
    ensures d[k] < d[k + 1] < |sections|
    ensures Between(build, sections, d)[k] == build(sections[d[k]], sections[d[k] + 1..d[k + 1]])
    decreases |d|
  {
    var e := d[..|d| - 1];
    assert Increasing(sections, e);
    if k + 2 < |d| {
      BetweenAt(build, sections, e, k);
    }
  }

  /** A position past the last one keeps the positions increasing. */
  lemma {:induction false} IncreasingAppend(sections: seq<Section>, d: seq<nat>, i: nat)
    requires Increasing(sections, d) && |d| > 0 && d[|d| - 1] < i < |sections|
    ensures Increasing(sections, d + [i])
  {
    DropLast(d, i);
  }

  /** One more position closes the map of the last one. */
  lemma {:induction false} BetweenAppend(build: Builder, sections: seq<Section>, d: seq<nat>, i: nat)
    requires Increasing(sections, d) && Increasing(sections, d + [i])
    requires |d| > 0 && d[|d| - 1] < i < |sections|
    ensures Between(build, sections, d + [i])
      == Between(build, sections, d) + [build(sections[d[|d| - 1]], sections[d[|d| - 1] + 1..i])]
  {
    DropLast(d, i);
  }

  lemma {:induction false} DropLast<T>(s: seq<T>, x: T)
    ensures (s + [x])[..|s|] == s
  {
  }

  /** The maps of the `##` sections among the first `n` that the next `##`
      section, also among them, has closed. */
  function ClosedMaps(build: Builder, sections: seq<Section>, n: nat): (r: seq<Result<SkillMap, ParseError>>)
    requires n <= |sections|
  {
    DoublesIncrease(sections, n);
    Between(build, sections, Doubles(sections, n))
  }

  /** The loop's variables after `n` sections, stated without the loop. */
  function Expected(build: Builder, sections: seq<Section>, n: nat): Result<Progress, ParseError>
    requires n <= |sections|
  {
    var d := Doubles(sections, n);
    ProgressFrom(ClosedMaps(build, sections, n), if |d| > 0 then Some(d[|d| - 1]) else None, LastMetadata(sections, n))
  }

  /** The loop's variables once the maps `results` are built one by one:
      the first that fails decides the error. */
  function ProgressFrom(results: seq<Result<SkillMap, ParseError>>, start: Option<nat>, metadata: Option<PageMetadata>)
    : Result<Progress, ParseError>
  {
    match Collect(results)
    case Failure(e) => Failure(e)
    case Success(ms) => Success(Progress(start, ms, metadata))
  }

  /** Building one more map after `results`. */
  lemma {:induction false} ProgressFromAppend(results: seq<Result<SkillMap, ParseError>>, m: Result<SkillMap, ParseError>, start: Option<nat>, metadata: Option<PageMetadata>)
    ensures var closed := Collect(results);
      ProgressFrom(results + [m], start, metadata)
        == if closed.Failure? then Failure(closed.error)
           else if m.Failure? then Failure(m.error)
           else Success(Progress(start, closed.value + [m.value], metadata))
  {
    CollectAppend(results, m);
  }

  lemma {:induction false} RunIsExpected(build: Builder, sections: seq<Section>, n: nat)
    requires n <= |sections|
    ensures Run(build, sections, n) == Expected(build, sections, n)
  {
    ExpectedAtStart(build, sections);
    for i := 0 to n
      invariant RunAgrees(build, sections, i)
    {
      ExpectedStep(build, sections, i);
    }
  }

  /** The loop's variables after `n` sections are as expected. */
  predicate RunAgrees(build: Builder, sections: seq<Section>, n: nat)
    requires n <= |sections|
  {
    Run(build, sections, n) == Expected(build, sections, n)
  }

  lemma {:induction false} ExpectedAtStart(build: Builder, sections: seq<Section>)
    ensures RunAgrees(build, sections, 0)
  {
    assert ClosedMaps(build, sections, 0) == [];
    assert Collect<SkillMap>([]) == Success([]);
  }

  lemma {:induction false} ExpectedStep(build: Builder, sections: seq<Section>, i: nat)
    requires i < |sections| && RunAgrees(build, sections, i)
    ensures RunAgrees(build, sections, i + 1)
  {
    if sections[i].headerKind == Double {
      DoubleStep(build, sections, i);
    } else {
      OtherStep(build, sections, i);
    }
  }

  /** A `#` or `###` section leaves the maps as they are. */
  lemma {:induction false} OtherStep(build: Builder, sections: seq<Section>, i: nat)
    requires i < |sections| && sections[i].headerKind != Double
    requires Run(build, sections, i) == Expected(build, sections, i)
    ensures Run(build, sections, i + 1) == Expected(build, sections, i + 1)
  {
    assert Doubles(sections, i + 1) == Doubles(sections, i);
  }

  /** A `##` section closes the map of the one before it. */
  lemma {:induction false} DoubleStep(build: Builder, sections: seq<Section>, i: nat)
    requires i < |sections| && sections[i].headerKind == Double
    requires Run(build, sections, i) == Expected(build, sections, i)
    ensures Run(build, sections, i + 1) == Expected(build, sections, i + 1)
  {
    if |Doubles(sections, i)| == 0 {
      OpeningStep(build, sections, i);
    } else {
      ClosingStep(build, sections, i);
    }
  }

  /** The first `##` section opens the first map. */
  lemma {:induction false} OpeningStep(build: Builder, sections: seq<Section>, i: nat)
    requires i < |sections| && sections[i].headerKind == Double && |Doubles(sections, i)| == 0
    requires Run(build, sections, i) == Expected(build, sections, i)
    ensures Run(build, sections, i + 1) == Expected(build, sections, i + 1)
  {
    assert Doubles(sections, i + 1) == [i];
    assert ClosedMaps(build, sections, i + 1) == [];
  }

  /** A later `##` section builds the map of the one before it. */
  lemma {:induction false} ClosingStep(build: Builder, sections: seq<Section>, i: nat)
    requires i < |sections| && sections[i].headerKind == Double && |Doubles(sections, i)| > 0
    requires Run(build, sections, i) == Expected(build, sections, i)
    ensures Run(build, sections, i + 1) == Expected(build, sections, i + 1)
  {
    if Run(build, sections, i).Success? {
      ClosingBuilt(build, sections, i);
    } else {
      ClosingAfterFailure(build, sections, i);
    }
  }

  lemma {:induction false} ClosingBuilt(build: Builder, sections: seq<Section>, i: nat)
    requires i < |sections| && sections[i].headerKind == Double && |Doubles(sections, i)| > 0
    requires Run(build, sections, i) == Expected(build, sections, i) && Run(build, sections, i).Success?
    ensures Run(build, sections, i + 1) == Expected(build, sections, i + 1)
  {
    var d := Doubles(sections, i);
    var ms := Collect(ClosedMaps(build, sections, i)).value;
    ExpectedClosing(build, sections, i);
    assert Run(build, sections, i) == Success(Progress(Some(d[|d| - 1]), ms, LastMetadata(sections, i)));
    ClosingTurn(build, sections, i, d[|d| - 1], ms, LastMetadata(sections, i));
  }

  /** Once a map has failed, the error stays. */
  lemma {:induction false} ClosingAfterFailure(build: Builder, sections: seq<Section>, i: nat)
    requires i < |sections| && sections[i].headerKind == Double && |Doubles(sections, i)| > 0
    requires Run(build, sections, i) == Expected(build, sections, i) && Run(build, sections, i).Failure?
    ensures Run(build, sections, i + 1) == Expected(build, sections, i + 1)
  {
    ExpectedClosing(build, sections, i);
  }

  /** A `##` section closes the map of the `##` section before it. */
  lemma {:induction false} ClosedMapsAppend(build: Builder, sections: seq<Section>, i: nat)
    requires i < |sections| && sections[i].headerKind == Double && |Doubles(sections, i)| > 0
    ensures var d := Doubles(sections, i);
      ClosedMaps(build, sections, i + 1)
        == ClosedMaps(build, sections, i) + [build(sections[d[|d| - 1]], sections[d[|d| - 1] + 1..i])]
  {
    var d := Doubles(sections, i);
    assert Doubles(sections, i + 1) == d + [i];
    DoublesIncrease(sections, i);
    DoublesIncrease(sections, i + 1);
    BetweenAppend(build, sections, d, i);
  }

  /** What is expected after a `##` section that closes a map: the same
      turn the loop takes. */
  lemma {:induction false} ExpectedClosing(build: Builder, sections: seq<Section>, i: nat)
    requires i < |sections| && sections[i].headerKind == Double && |Doubles(sections, i)| > 0
    ensures var d := Doubles(sections, i);
      var closed := Collect(ClosedMaps(build, sections, i));
      var m := build(sections[d[|d| - 1]], sections[d[|d| - 1] + 1..i]);
      Expected(build, sections, i + 1)
        == if closed.Failure? then Failure(closed.error)
           else if m.Failure? then Failure(m.error)
           else Success(Progress(Some(i), closed.value + [m.value], LastMetadata(sections, i)))
  {
    var d := Doubles(sections, i);
    assert Doubles(sections, i + 1) == d + [i];
    assert LastMetadata(sections, i + 1) == LastMetadata(sections, i);
    ClosedMapsAppend(build, sections, i);
    ProgressFromAppend(ClosedMaps(build, sections, i), build(sections[d[|d| - 1]], sections[d[|d| - 1] + 1..i]), Some(i), LastMetadata(sections, i));
  }

  /** Every map of the page, in order: the maps the `##` sections close,
      then the map of the last `##` section and every section after it. */
  function MapResults(build: Builder, sections: seq<Section>): (r: seq<Result<SkillMap, ParseError>>) {
    var d := Doubles(sections, |sections|);
    if |d| == 0 then []
    else
      var a := d[|d| - 1];
      ClosedMaps(build, sections, |sections|) + [build(sections[a], sections[a + 1..])]
  }

  /** The page, map by map: no `##` section is an error; otherwise the first
      map that fails decides the error, and a page has one map per `##`
      section and the metadata of the last `#` section. */
  function PageOf(build: Builder, sections: seq<Section>): (r: Result<Page, ParseError>) {
    if Doubles(sections, |sections|) == [] then Failure(NoMapHeader)
    else PageFrom(MapResults(build, sections), LastMetadata(sections, |sections|))
  }

  /** The page of the maps built one by one: the first that fails decides
      the error. */
  function PageFrom(results: seq<Result<SkillMap, ParseError>>, metadata: Option<PageMetadata>): Result<Page, ParseError> {
    match Collect(results)
    case Failure(e) => Failure(e)
    case Success(maps) => Success(Page(maps, metadata))
  }

  /** The page of some maps and then one more. */
  lemma {:induction false} PageFromAppend(results: seq<Result<SkillMap, ParseError>>, last: Result<SkillMap, ParseError>, metadata: Option<PageMetadata>)
    ensures var closed := Collect(results);
      PageFrom(results + [last], metadata)
        == if closed.Failure? then Failure(closed.error)
           else if last.Failure? then Failure(last.error)
           else Success(Page(closed.value + [last.value], metadata))
  {
    CollectAppend(results, last);
  }

  lemma {:induction false} ParseIsPageOf(build: Builder, sections: seq<Section>)
    ensures ParseSections(build, sections) == PageOf(build, sections)
  {
    RunIsExpected(build, sections, |sections|);
    if |Doubles(sections, |sections|)| > 0 {
      SomeDoubleIsPageOf(build, sections);
    } else {
      NoDoubleIsPageOf(build, sections);
    }
  }

  lemma {:induction false} NoDoubleIsPageOf(build: Builder, sections: seq<Section>)
    requires Doubles(sections, |sections|) == []
    requires Run(build, sections, |sections|) == Expected(build, sections, |sections|)
    ensures ParseSections(build, sections) == Failure(NoMapHeader) == PageOf(build, sections)
  {
    assert ClosedMaps(build, sections, |sections|) == [];
    assert Run(build, sections, |sections|).Success? && Run(build, sections, |sections|).value.start.None?;
  }

  lemma {:induction false} SomeDoubleIsPageOf(build: Builder, sections: seq<Section>)
    requires |Doubles(sections, |sections|)| > 0
    requires Run(build, sections, |sections|) == Expected(build, sections, |sections|)
    ensures ParseSections(build, sections) == PageOf(build, sections)
  {
    var d := Doubles(sections, |sections|);
    var results := ClosedMaps(build, sections, |sections|);
    var last := build(sections[d[|d| - 1]], sections[d[|d| - 1] + 1..]);
    var metadata := LastMetadata(sections, |sections|);
    LastMap(build, sections);
    PageFromAppend(results, last, metadata);
    assert ParseSections(build, sections) == PageFrom(results + [last], metadata);
    PageOfSplit(build, sections);
  }

  /** The closed maps, one by one: each is built from its `##` section up
      to the next one. */
  lemma {:induction false} ClosedMapsAt(build: Builder, sections: seq<Section>, k: nat)
    ensures var d := Doubles(sections, |sections|); k + 1 < |d| ==> d[k] < d[k + 1]
    ensures var d := Doubles(sections, |sections|);
      && |ClosedMaps(build, sections, |sections|)| == (if |d| > 0 then |d| - 1 else 0)
      && (k + 1 < |d| ==> ClosedMaps(build, sections, |sections|)[k] == build(sections[d[k]], sections[d[k] + 1..d[k + 1]]))
  {
    var d := Doubles(sections, |sections|);
    DoublesIncrease(sections, |sections|);
    if k + 1 < |d| {
      BetweenAt(build, sections, d, k);
    }
  }

  /** The maps of the page, one by one: the map of the `k`-th `##` section
      is built from the sections after it up to the next `##` section or
      the end. */
  lemma {:induction false} MapResultsAt(build: Builder, sections: seq<Section>, k: nat)
    requires k < |Doubles(sections, |sections|)|
    ensures var d := Doubles(sections, |sections|); k + 1 < |d| ==> d[k] < d[k + 1]
    ensures var d := Doubles(sections, |sections|);
      var end := if k + 1 < |d| then d[k + 1] else |sections|;
      && |MapResults(build, sections)| == |d|
      && MapResults(build, sections)[k] == build(sections[d[k]], sections[d[k] + 1..end])
  {
    var d := Doubles(sections, |sections|);
    ClosedMapsAt(build, sections, k);
    if k + 1 == |d| {
      assert sections[d[k] + 1..|sections|] == sections[d[k] + 1..];
    }
  }

  /** After the loop, the closed maps and then the map of the last `##`
      section make the page. */
  lemma {:induction false} LastMap(build: Builder, sections: seq<Section>)
    requires |Doubles(sections, |sections|)| > 0
    requires Run(build, sections, |sections|) == Expected(build, sections, |sections|)
    ensures var d := Doubles(sections, |sections|);
      var closed := Collect(ClosedMaps(build, sections, |sections|));
      var last := build(sections[d[|d| - 1]], sections[d[|d| - 1] + 1..]);
      ParseSections(build, sections)
        == if closed.Failure? then Failure(closed.error)
           else if last.Failure? then Failure(last.error)
           else Success(Page(closed.value + [last.value], LastMetadata(sections, |sections|)))
  {
    var d := Doubles(sections, |sections|);
    var closed := Collect(ClosedMaps(build, sections, |sections|));
    if closed.Success? {
      var p := Progress(Some(d[|d| - 1]), closed.value, LastMetadata(sections, |sections|));
      assert Run(build, sections, |sections|) == Success(p);
      LastTurn(build, sections, p);
    } else {
      assert Run(build, sections, |sections|) == Failure(closed.error);
    }
  }

  /** The page is the closed maps, then the map of the last `##`
      section. */
  lemma {:induction false} PageOfSplit(build: Builder, sections: seq<Section>)
    requires |Doubles(sections, |sections|)| > 0
    ensures var d := Doubles(sections, |sections|);
      var last := build(sections[d[|d| - 1]], sections[d[|d| - 1] + 1..]);
      PageOf(build, sections) == PageFrom(ClosedMaps(build, sections, |sections|) + [last], LastMetadata(sections, |sections|))
  {
    var d := Doubles(sections, |sections|);
    var results := ClosedMaps(build, sections, |sections|) + [build(sections[d[|d| - 1]], sections[d[|d| - 1] + 1..])];
    assert MapResults(build, sections) == results;
    assert PageOf(build, sections) == PageFrom(results, LastMetadata(sections, |sections|));
  }

  /** The page of a text: as many maps as `##` sections, each built from
      its own sections, and the metadata of the last `#` section. */
  lemma {:induction false} ParsedMaps(text: string)
    requires Parse(text).Success?
    ensures var sections := SectionsOf(text);
      var d := Doubles(sections, |sections|);
      && |Parse(text).value.maps| == |d| > 0
      && (forall k :: 0 <= k < |d| ==> MapResults(BuildMap, sections)[k] == Success(Parse(text).value.maps[k]))
      && Parse(text).value.metadata == LastMetadata(sections, |sections|)
  {
    ParseIsPageOf(BuildMap, SectionsOf(text));
  }

  /** A text without a `##` section fails. */
  lemma {:induction false} NoDoubleNoMap(text: string)
    requires forall i :: 0 <= i < |SectionsOf(text)| ==> SectionsOf(text)[i].headerKind != Double
    ensures Parse(text) == Failure(NoMapHeader)
  {
    var sections := SectionsOf(text);
    ParseIsPageOf(BuildMap, sections);
    NoDoubles(sections);
  }

  lemma {:induction false} NoDoubles(sections: seq<Section>)
    requires forall i :: 0 <= i < |sections| ==> sections[i].headerKind != Double
    ensures Doubles(sections, |sections|) == []
  {
    DoublesSkip(sections, 0, |sections|);
  }

  /** Sections other than `##` add no position. */
  lemma {:induction false} DoublesSkip(sections: seq<Section>, m: nat, n: nat)
    requires m <= n <= |sections|
    requires forall i :: m <= i < n ==> sections[i].headerKind != Double
    ensures Doubles(sections, n) == Doubles(sections, m)
  {
    if m < n {
      DoublesSkip(sections, m, n - 1);
    }
  }

  /** A single map: a `##` section and what follows it, with no other `##`
      section. Every following section, `#` ones included, is a node of the
      map, and a `#` section also sets the page metadata. */
  lemma {:induction false} OneMap(build: Builder, sections: seq<Section>)
    requires |sections| > 0 && sections[0].headerKind == Double
    requires forall i :: 0 < i < |sections| ==> sections[i].headerKind != Double
    ensures var m := build(sections[0], sections[1..]);
      && (m.Failure? ==> ParseSections(build, sections) == Failure(m.error))
      && (m.Success? ==> ParseSections(build, sections) == Success(Page([m.value], LastMetadata(sections, |sections|))))
  {
    ParseIsPageOf(build, sections);
    OnlyFirstDouble(sections);
    var x := build(sections[0], sections[1..]);
    assert ClosedMaps(build, sections, |sections|) == [];
    assert MapResults(build, sections) == [x];
    CollectAppend([], x);
    assert Collect<SkillMap>([]) == Success([]);
    assert [] + [x] == [x];
    if x.Success? {
      assert [] + [x.value] == [x.value];
    }
  }

  lemma {:induction false} OnlyFirstDouble(sections: seq<Section>)
    requires |sections| > 0 && sections[0].headerKind == Double
    requires forall i :: 0 < i < |sections| ==> sections[i].headerKind != Double
    ensures Doubles(sections, |sections|) == [0]
  {
    DoublesSkip(sections, 1, |sections|);
    assert Doubles(sections, 1) == Doubles(sections, 0) + [0];
  }
}
