/**
 * Leave-one-out validation of the interpolation models: each station in turn is predicted from the
 * others, and all models are compared on the keys that every one of them predicted.
 */
module CrossValidation {
  import opened Interpolation
  import opened Ordering
  import opened Wire

  const DEFAULT_MIN_REFS := 2
  const POWER: real := 2.0

  datatype Key = Key(epoch: string, satellite: string, station: string)

  datatype Site = Site(station: string, at: Point)

  /** Sites are the entries of a dictionary by station, so each station has one position. */
  datatype Setup = Setup(epochs: seq<string>, satellites: seq<string>, sites: seq<Site>, observed: map<Key, real>,
                         models: seq<Model>, minRefs: int, defaults: Option<map<string, real>>, foldDatum: bool)

  predicate OnePlaceEach(sites: seq<Site>) {
    forall a, b :: a in sites && b in sites && a.station == b.station ==> a == b
  }

  predicate ByStation(a: Site, b: Site) { LexLe(a.station, b.station) }

  function Stations(s: Setup): seq<Site> { SortBy(ByStation, s.sites) }

  // ----- folds

  datatype Fold = Fold(target: Site, references: seq<Site>)

  predicate Admissible(s: Setup, fold: Fold) { |fold.references| >= s.minRefs }

  /** A fold datum is asked for and there is no reference to take it from. */
  predicate WithoutDatum(s: Setup, fold: Fold) { Admissible(s, fold) && s.foldDatum && fold.references == [] }

  function Others(sites: seq<Site>, station: string): (r: seq<Site>)
    ensures forall site :: site in r <==> site in sites && site.station != station
  {
    if sites == [] then []
    else
      var last := sites[|sites| - 1];
      Others(sites[..|sites| - 1], station) + if last.station != station then [last] else []
  }

  function FoldFor(sites: seq<Site>, target: Site): Fold { Fold(target, Others(sites, target.station)) }

  method LoocvFolds(sites: seq<Site>) returns (folds: seq<Fold>)
    ensures |folds| == |sites| && forall i :: 0 <= i < |sites| ==> folds[i] == FoldFor(sites, sites[i])
  {
    folds := [];
    for i := 0 to |sites|
      invariant |folds| == i && forall j :: 0 <= j < i ==> folds[j] == FoldFor(sites, sites[j])
    {
      folds := folds + [Fold(sites[i], Others(sites, sites[i].station))];
    }
  }

  // ----- one held-out value

  /** A definitional default fills in for a reference that was not observed. */
  function ReferenceValue(s: Setup, epoch: string, satellite: string, station: string): Option<real> {
    var key := Key(epoch, satellite, station);
    if key in s.observed then Some(s.observed[key])
    else if s.defaults.Some? && station in s.defaults.value then Some(s.defaults.value[station])
    else None
  }

  function DatumOf(s: Setup, fold: Fold): Option<string> {
    if s.foldDatum && fold.references != [] then Some(fold.references[0].station) else None
  }

  /** An empty name is no datum. */
  function OffsetOf(s: Setup, epoch: string, satellite: string, datum: Option<string>): Option<real> {
    if datum.None? || datum.value == "" then Some(0.0)
    else
      var key := Key(epoch, satellite, datum.value);
      if key in s.observed then Some(s.observed[key]) else None
  }

  function ReferenceAt(s: Setup, site: Site, epoch: string, satellite: string, offset: real): Reference {
    var value := ReferenceValue(s, epoch, satellite, site.station);
    Reference(site.station, site.at, if value.Some? then Some(value.value - offset) else None)
  }

  function ReferencesAt(s: Setup, sites: seq<Site>, epoch: string, satellite: string, offset: real): (r: seq<Reference>)
    ensures |r| == |sites|
    ensures forall i :: 0 <= i < |sites| ==> r[i] == ReferenceAt(s, sites[i], epoch, satellite, offset)
  {
    seq(|sites|, i requires 0 <= i < |sites| => ReferenceAt(s, sites[i], epoch, satellite, offset))
  }

  datatype Cell = Skipped | Compared(observed: real, references: seq<Reference>)

  function CellOf(s: Setup, fold: Fold, epoch: string, satellite: string): Cell {
    var key := Key(epoch, satellite, fold.target.station);
    var offset := OffsetOf(s, epoch, satellite, DatumOf(s, fold));
    if key !in s.observed || offset.None? then Skipped
    else
      Compared(s.observed[key] - offset.value, ReferencesAt(s, fold.references, epoch, satellite, offset.value))
  }

  datatype Scored = Scored(predicted: real, residual: real)

  function ScoreCell(g: Geometry, model: Model, cell: Cell, target: Point): Option<Scored>
    requires ValidGeometry(g)
  {
    if cell.Skipped? then None
    else
      var predicted := Predicted(g, model, POWER, cell.references, target);
      if predicted.None? then None else Some(Scored(predicted.value, cell.observed - predicted.value))
  }

  function SiteOf(sites: seq<Site>, station: string): Option<Site> {
    if sites == [] then None
    else if sites[0].station == station then Some(sites[0])
    else SiteOf(sites[1..], station)
  }

  /** The score a key gets: its station is the held-out target of the fold. */
  function ScoreAt(g: Geometry, s: Setup, model: Model, key: Key): Option<Scored>
    requires ValidGeometry(g)
  {
    var target := SiteOf(Stations(s), key.station);
    if target.None? || key.epoch !in s.epochs || key.satellite !in s.satellites then None
    else
      var fold := FoldFor(Stations(s), target.value);
      if !Admissible(s, fold) || WithoutDatum(s, fold) then None
      else ScoreCell(g, model, CellOf(s, fold, key.epoch, key.satellite), fold.target.at)
  }

  // ----- the whole validation

  /** A fold with the numbers of its keys that were evaluated and skipped. */
  datatype Row = Row(fold: Fold, evaluated: nat, skipped: nat)

  /** NoReference: the first reference of a fold without any was asked for, which raises. */
  datatype Outcome =
    | Rejected
    | NoReference
    | Validated(rows: seq<Row>, common: set<Key>, scores: map<Model, map<Key, Scored>>, skipped: nat)

  function ScoresOf(g: Geometry, s: Setup, model: Model, seen: seq<Key>): map<Key, Scored>
    requires ValidGeometry(g)
  {
    if seen == [] then map[]
    else
      var last := |seen| - 1;
      var before := ScoresOf(g, s, model, seen[..last]);
      var score := ScoreAt(g, s, model, seen[last]);
      if score.None? then before else before[seen[last] := score.value]
  }

  ghost predicate ScoresSoFar(g: Geometry, s: Setup, scores: map<Model, map<Key, Scored>>, seen: seq<Key>)
    requires ValidGeometry(g)
  {
    forall model <- s.models :: model in scores && scores[model] == ScoresOf(g, s, model, seen)
  }

  lemma {:induction false} ScoresOfAt(g: Geometry, s: Setup, model: Model, seen: seq<Key>, key: Key)
    requires ValidGeometry(g)
    ensures key in ScoresOf(g, s, model, seen) <==> key in seen && ScoreAt(g, s, model, key).Some?
    ensures key in ScoresOf(g, s, model, seen) ==> Some(ScoresOf(g, s, model, seen)[key]) == ScoreAt(g, s, model, key)
  {
    hide ScoreAt, ValidGeometry;
    if seen != [] {
      ScoresOfAt(g, s, model, seen[..|seen| - 1], key);
      assert seen == seen[..|seen| - 1] + [seen[|seen| - 1]];
    }
  }

  lemma ScoresOfSnoc(g: Geometry, s: Setup, model: Model, seen: seq<Key>, key: Key)
    requires ValidGeometry(g)
    ensures ScoresOf(g, s, model, seen + [key])
            == if ScoreAt(g, s, model, key).None? then ScoresOf(g, s, model, seen)
               else ScoresOf(g, s, model, seen)[key := ScoreAt(g, s, model, key).value]
  {
    hide ScoreAt, ValidGeometry;
    assert (seen + [key])[..|seen|] == seen;
  }

  /** The fold that a station of the setup is the target of, with enough references. */
  ghost predicate IsFold(s: Setup, fold: Fold) {
    && SiteOf(Stations(s), fold.target.station) == Some(fold.target)
    && fold == FoldFor(Stations(s), fold.target) && Admissible(s, fold) && !WithoutDatum(s, fold)
  }

  lemma ScoreOfKey(g: Geometry, s: Setup, fold: Fold, epoch: string, satellite: string, model: Model)
    requires ValidGeometry(g) && IsFold(s, fold) && epoch in s.epochs && satellite in s.satellites
    ensures ScoreAt(g, s, model, Key(epoch, satellite, fold.target.station))
            == ScoreCell(g, model, CellOf(s, fold, epoch, satellite), fold.target.at)
  {
    hide ValidGeometry, CellOf, ScoreCell, Stations;
  }

  method ScoreKey(g: Geometry, s: Setup, fold: Fold, epoch: string, satellite: string,
                  before: map<Model, map<Key, Scored>>, ghost seen: seq<Key>)
    returns (scores: map<Model, map<Key, Scored>>, evaluated: bool)
    requires ValidGeometry(g) && IsFold(s, fold) && epoch in s.epochs && satellite in s.satellites
    requires ScoresSoFar(g, s, before, seen)
    ensures ScoresSoFar(g, s, scores, seen + [Key(epoch, satellite, fold.target.station)])
    ensures evaluated <==> CellOf(s, fold, epoch, satellite).Compared?
  {
    hide ValidGeometry, IsFold, ScoresOf, ScoreAt, ReferencesAt, OffsetOf, DatumOf, Predicted;
    scores, evaluated := before, false;
    var key := Key(epoch, satellite, fold.target.station);
    forall model ensures ScoreAt(g, s, model, key) == ScoreCell(g, model, CellOf(s, fold, epoch, satellite), fold.target.at) {
      ScoreOfKey(g, s, fold, epoch, satellite, model);
    }
    forall model {
      ScoresOfSnoc(g, s, model, seen, key);
    }
    if key !in s.observed {
      return;
    }
    var offset := OffsetOf(s, epoch, satellite, DatumOf(s, fold));
    if offset.None? {
      return;
    }
    var observed := s.observed[key] - offset.value;
    var references := ReferencesAt(s, fold.references, epoch, satellite, offset.value);
    for i := 0 to |s.models|
      invariant forall model <- s.models ::
                  model in scores
                  && scores[model] == ScoresOf(g, s, model, if model in s.models[..i] then seen + [key] else seen)
    {
      var model := s.models[i];
      assert s.models[..i + 1] == s.models[..i] + [model];
      var p := Interpolate(g, model, POWER, references, fold.target.at, Some(observed));
      if p.predicted.Some? && p.residual.Some? {
        scores := scores[model := scores[model][key := Scored(p.predicted.value, p.residual.value)]];
      }
    }
    assert s.models[..|s.models|] == s.models;
    evaluated := true;
  }

  // ----- how many keys of a fold are evaluated

  function EvaluatedAt(s: Setup, fold: Fold, epoch: string, satellites: seq<string>): (n: nat)
    ensures n <= |satellites|
  {
    if satellites == [] then 0
    else
      var last := |satellites| - 1;
      EvaluatedAt(s, fold, epoch, satellites[..last])
      + if CellOf(s, fold, epoch, satellites[last]).Compared? then 1 else 0
  }

  function Evaluated(s: Setup, fold: Fold, epochs: seq<string>): nat {
    if epochs == [] then 0
    else
      var last := |epochs| - 1;
      Evaluated(s, fold, epochs[..last]) + EvaluatedAt(s, fold, epochs[last], s.satellites)
  }

  function GridSize(epochs: nat, satellites: nat): nat { epochs * satellites }

  lemma GridGrows(i: nat, n: nat)
    ensures GridSize(i + 1, n) == GridSize(i, n) + n && GridSize(0, n) == 0
  {}

  lemma EvaluatedAtSnoc(s: Setup, fold: Fold, epoch: string, satellites: seq<string>, satellite: string)
    ensures EvaluatedAt(s, fold, epoch, satellites + [satellite])
            == EvaluatedAt(s, fold, epoch, satellites) + if CellOf(s, fold, epoch, satellite).Compared? then 1 else 0
  {
    hide CellOf;
    assert (satellites + [satellite])[..|satellites|] == satellites;
  }

  lemma EvaluatedSnoc(s: Setup, fold: Fold, epochs: seq<string>, epoch: string)
    ensures Evaluated(s, fold, epochs + [epoch]) == Evaluated(s, fold, epochs) + EvaluatedAt(s, fold, epoch, s.satellites)
  {
    hide EvaluatedAt;
    assert (epochs + [epoch])[..|epochs|] == epochs;
  }

  lemma NothingEvaluated(s: Setup, fold: Fold, epoch: string)
    ensures Evaluated(s, fold, []) == EvaluatedAt(s, fold, epoch, []) == 0
  {}

  lemma {:induction false} EvaluatedFits(s: Setup, fold: Fold, epochs: seq<string>)
    ensures Evaluated(s, fold, epochs) <= GridSize(|epochs|, |s.satellites|)
  {
    hide EvaluatedAt, GridSize;
    if epochs == [] {
      GridGrows(0, |s.satellites|);
    } else {
      EvaluatedFits(s, fold, epochs[..|epochs| - 1]);
      GridGrows(|epochs| - 1, |s.satellites|);
    }
  }

  predicate InGrid(key: Key, station: string, epochs: seq<string>, satellites: seq<string>) {
    key.station == station && key.epoch in epochs && key.satellite in satellites
  }

  method ScoreFold(g: Geometry, s: Setup, fold: Fold, before: map<Model, map<Key, Scored>>, ghost seen: seq<Key>)
    returns (scores: map<Model, map<Key, Scored>>, evaluated: nat, skipped: nat, ghost after: seq<Key>)
    requires ValidGeometry(g) && IsFold(s, fold) && ScoresSoFar(g, s, before, seen)
    ensures ScoresSoFar(g, s, scores, after)
    ensures forall key :: key in after <==> key in seen || InGrid(key, fold.target.station, s.epochs, s.satellites)
    ensures evaluated == Evaluated(s, fold, s.epochs) && evaluated + skipped == GridSize(|s.epochs|, |s.satellites|)
  {
    hide ValidGeometry, IsFold, ScoresSoFar, CellOf, Evaluated, EvaluatedAt, GridSize;
    scores, evaluated, skipped, after := before, 0, 0, seen;
    var station := fold.target.station;
    NothingEvaluated(s, fold, "");
    GridGrows(0, |s.satellites|);
    for i := 0 to |s.epochs|
      invariant ScoresSoFar(g, s, scores, after)
      invariant forall key :: key in after <==> key in seen || InGrid(key, station, s.epochs[..i], s.satellites)
      invariant evaluated == Evaluated(s, fold, s.epochs[..i]) && evaluated + skipped == GridSize(i, |s.satellites|)
    {
      var epoch := s.epochs[i];
      ghost var start, done := after, evaluated;
      NothingEvaluated(s, fold, epoch);
      for j := 0 to |s.satellites|
        invariant ScoresSoFar(g, s, scores, after)
        invariant forall key :: key in after <==> key in start || InGrid(key, station, [epoch], s.satellites[..j])
        invariant evaluated == done + EvaluatedAt(s, fold, epoch, s.satellites[..j])
        invariant evaluated + skipped == GridSize(i, |s.satellites|) + j
      {
        var compared;
        scores, compared := ScoreKey(g, s, fold, epoch, s.satellites[j], scores, after);
        if compared {
          evaluated := evaluated + 1;
        } else {
          skipped := skipped + 1;
        }
        after := after + [Key(epoch, s.satellites[j], station)];
        assert s.satellites[..j + 1] == s.satellites[..j] + [s.satellites[j]];
        EvaluatedAtSnoc(s, fold, epoch, s.satellites[..j], s.satellites[j]);
      }
      assert s.satellites[..|s.satellites|] == s.satellites;
      assert s.epochs[..i + 1] == s.epochs[..i] + [epoch];
      EvaluatedSnoc(s, fold, s.epochs[..i], epoch);
      GridGrows(i, |s.satellites|);
    }
    assert s.epochs[..|s.epochs|] == s.epochs;
  }

  // ----- the keys all models share

  ghost predicate CommonKey(g: Geometry, s: Setup, key: Key)
    requires ValidGeometry(g)
  {
    s.models != [] && forall model <- s.models :: ScoreAt(g, s, model, key).Some?
  }

  method SharedKeys(models: seq<Model>, scores: map<Model, map<Key, Scored>>) returns (common: set<Key>)
    requires forall model <- models :: model in scores
    ensures forall key :: key in common <==> models != [] && forall model <- models :: key in scores[model]
  {
    if models == [] {
      return {};
    }
    common := scores[models[0]].Keys;
    for i := 1 to |models|
      invariant forall key :: key in common <==> forall model <- models[..i] :: key in scores[model]
    {
      assert models[..i + 1] == models[..i] + [models[i]];
      common := common * scores[models[i]].Keys;
    }
    assert models[..|models|] == models;
  }

  /** Everything a key of the grid needs has been visited. */
  ghost predicate Visited(s: Setup, stations: seq<Site>, seen: seq<Key>) {
    forall key :: key in seen <==>
      key.epoch in s.epochs && key.satellite in s.satellites
      && exists site <- stations :: site.station == key.station && Admissible(s, FoldFor(Stations(s), site))
  }

  lemma VisitedFold(s: Setup, stations: seq<Site>, site: Site, seen: seq<Key>, after: seq<Key>)
    requires Visited(s, stations, seen)
    requires if Admissible(s, FoldFor(Stations(s), site))
             then forall key :: key in after <==> key in seen || InGrid(key, site.station, s.epochs, s.satellites)
             else after == seen
    ensures Visited(s, stations + [site], after)
  {
    hide FoldFor, Stations;
  }

  lemma {:induction false} SiteOfIs(sites: seq<Site>, station: string)
    ensures var site := SiteOf(sites, station);
            if site.Some? then site.value in sites && site.value.station == station
            else forall other <- sites :: other.station != station
  {
    if sites != [] {
      SiteOfIs(sites[1..], station);
      assert sites == [sites[0]] + sites[1..];
    }
  }

  lemma ByStationIsPreorder()
    ensures TotalPreorder(ByStation)
  {
    LexIsPreorder();
  }

  lemma StationsAre(s: Setup)
    ensures forall site :: site in Stations(s) <==> site in s.sites
  {
    ByStationIsPreorder();
    SortBySorts(ByStation, s.sites);
    SameMembers(Stations(s), s.sites);
  }

  lemma FoldOfSite(s: Setup, site: Site)
    requires OnePlaceEach(s.sites) && site in Stations(s)
    ensures SiteOf(Stations(s), site.station) == Some(site)
  {
    hide Stations;
    StationsAre(s);
    SiteOfIs(Stations(s), site.station);
  }

  /** An inadmissible fold is reported and not evaluated. */
  function RowOf(s: Setup, fold: Fold): (row: Row)
    ensures row.fold == fold
  {
    if !Admissible(s, fold) then Row(fold, 0, 0)
    else
      EvaluatedFits(s, fold, s.epochs);
      Row(fold, Evaluated(s, fold, s.epochs), GridSize(|s.epochs|, |s.satellites|) - Evaluated(s, fold, s.epochs))
  }

  /** The places compared in the row of the grid at i. */
  function ComparedAt(s: Setup, fold: Fold, epoch: string, satellites: seq<string>, i: int): set<(int, int)> {
    set j | 0 <= j < |satellites| && CellOf(s, fold, epoch, satellites[j]).Compared? :: (i, j)
  }

  lemma NothingCompared(s: Setup, fold: Fold, epoch: string, i: int)
    ensures ComparedAt(s, fold, epoch, [], i) == {}
  {}

  lemma ComparedAtFits(s: Setup, fold: Fold, epoch: string, satellites: seq<string>, i: int)
    ensures forall place <- ComparedAt(s, fold, epoch, satellites, i) :: place.0 == i && place.1 < |satellites|
  {
    hide CellOf;
  }

  lemma ComparedAtSnoc(s: Setup, fold: Fold, epoch: string, satellites: seq<string>, satellite: string, i: int)
    ensures ComparedAt(s, fold, epoch, satellites + [satellite], i)
         == ComparedAt(s, fold, epoch, satellites, i)
            + if CellOf(s, fold, epoch, satellite).Compared? then {(i, |satellites|)} else {}
  {
    hide CellOf;
  }

  lemma {:induction false} EvaluatedAtIs(s: Setup, fold: Fold, epoch: string, satellites: seq<string>, i: int)
    ensures EvaluatedAt(s, fold, epoch, satellites) == |ComparedAt(s, fold, epoch, satellites, i)|
  {
    hide CellOf, EvaluatedAt, ComparedAt;
    if satellites == [] {
      NothingEvaluated(s, fold, epoch);
      NothingCompared(s, fold, epoch, i);
    } else {
      var n := |satellites| - 1;
      var front := satellites[..n];
      assert satellites == front + [satellites[n]];
      EvaluatedAtIs(s, fold, epoch, front, i);
      EvaluatedAtSnoc(s, fold, epoch, front, satellites[n]);
      ComparedAtSnoc(s, fold, epoch, front, satellites[n], i);
      assert (i, n) !in ComparedAt(s, fold, epoch, front, i) by {
        ComparedAtFits(s, fold, epoch, front, i);
      }
    }
  }

  /** The places of the whole grid that are compared. */
  function ComparedIn(s: Setup, fold: Fold, epochs: seq<string>): set<(int, int)> {
    set i, j | 0 <= i < |epochs| && 0 <= j < |s.satellites| && CellOf(s, fold, epochs[i], s.satellites[j]).Compared? :: (i, j)
  }

  lemma NoRowCompared(s: Setup, fold: Fold)
    ensures ComparedIn(s, fold, []) == {}
  {}

  lemma ComparedInFits(s: Setup, fold: Fold, epochs: seq<string>)
    ensures forall place <- ComparedIn(s, fold, epochs) :: place.0 < |epochs|
  {
    hide CellOf;
  }

  lemma ComparedInSnoc(s: Setup, fold: Fold, epochs: seq<string>, epoch: string)
    ensures ComparedIn(s, fold, epochs + [epoch])
         == ComparedIn(s, fold, epochs) + ComparedAt(s, fold, epoch, s.satellites, |epochs|)
  {
    hide CellOf;
  }

  lemma {:induction false} EvaluatedIs(s: Setup, fold: Fold, epochs: seq<string>)
    ensures Evaluated(s, fold, epochs) == |ComparedIn(s, fold, epochs)|
  {
    hide CellOf, Evaluated, EvaluatedAt, ComparedAt, ComparedIn;
    if epochs == [] {
      NothingEvaluated(s, fold, "");
      NoRowCompared(s, fold);
    } else {
      var n := |epochs| - 1;
      var front := epochs[..n];
      assert epochs == front + [epochs[n]];
      EvaluatedIs(s, fold, front);
      EvaluatedSnoc(s, fold, front, epochs[n]);
      EvaluatedAtIs(s, fold, epochs[n], s.satellites, n);
      ComparedInSnoc(s, fold, front, epochs[n]);
      ComparedInFits(s, fold, front);
      ComparedAtFits(s, fold, epochs[n], s.satellites, n);
      assert ComparedIn(s, fold, front) !! ComparedAt(s, fold, epochs[n], s.satellites, n);
    }
  }

  /** A fold with enough references counts each place of the grid once, as evaluated or as skipped; any other none. */
  lemma RowCounts(s: Setup, fold: Fold)
    ensures var row := RowOf(s, fold);
            if |fold.references| >= s.minRefs then
              row.evaluated == |ComparedIn(s, fold, s.epochs)| && row.evaluated + row.skipped == |s.epochs| * |s.satellites|
            else row.evaluated == row.skipped == 0
  {
    hide ComparedIn, Evaluated;
    EvaluatedIs(s, fold, s.epochs);
  }

  function SkippedIn(rows: seq<Row>): nat {
    if rows == [] then 0 else SkippedIn(rows[..|rows| - 1]) + rows[|rows| - 1].skipped
  }

  lemma SkippedSnoc(rows: seq<Row>, row: Row)
    ensures SkippedIn(rows + [row]) == SkippedIn(rows) + row.skipped
  {
    assert (rows + [row])[..|rows|] == rows;
  }

  /** The comparison of all models on the keys they share. */
  method Compare(g: Geometry, s: Setup, scores: map<Model, map<Key, Scored>>, ghost seen: seq<Key>)
    returns (common: set<Key>, shared: map<Model, map<Key, Scored>>)
    requires ValidGeometry(g) && ScoresSoFar(g, s, scores, seen) && Visited(s, Stations(s), seen)
    requires forall site <- Stations(s) :: !WithoutDatum(s, FoldFor(Stations(s), site))
    ensures forall key :: key in common <==> CommonKey(g, s, key)
    ensures forall model <- s.models ::
              model in shared && shared[model].Keys == common
              && forall key <- common :: Some(shared[model][key]) == ScoreAt(g, s, model, key)
  {
    hide ValidGeometry, FoldFor, ScoresSoFar, ScoreAt, Visited, SortBy, Stations, WithoutDatum;
    forall model <- s.models ensures model in scores {
      AllScored(g, s, scores, seen, model, Key("", "", ""));
    }
    forall model <- s.models, key
      ensures key in scores[model] <==> ScoreAt(g, s, model, key).Some?
      ensures key in scores[model] ==> Some(scores[model][key]) == ScoreAt(g, s, model, key)
    {
      AllScored(g, s, scores, seen, model, key);
    }
    common := SharedKeys(s.models, scores);
    shared := map model | model in s.models :: map key | key in common :: scores[model][key];
  }

  /** One fold; None when it has no reference to take its datum from. */
  method TakeFold(g: Geometry, s: Setup, fold: Fold, before: map<Model, map<Key, Scored>>,
                  ghost stations: seq<Site>, ghost seen: seq<Key>)
    returns (row: Option<Row>, scores: map<Model, map<Key, Scored>>, ghost after: seq<Key>)
    requires ValidGeometry(g) && OnePlaceEach(s.sites) && fold.target in Stations(s)
    requires fold == FoldFor(Stations(s), fold.target)
    requires ScoresSoFar(g, s, before, seen) && Visited(s, stations, seen)
    ensures row.None? <==> WithoutDatum(s, fold)
    ensures row.Some? ==> row.value == RowOf(s, fold)
    ensures row.Some? ==> ScoresSoFar(g, s, scores, after) && Visited(s, stations + [fold.target], after)
  {
    hide ValidGeometry, FoldFor, ScoresSoFar, Visited, Stations, Evaluated, GridSize;
    scores, after := before, seen;
    if !Admissible(s, fold) {
      row := Some(Row(fold, 0, 0));
    } else {
      if s.foldDatum && fold.references == [] {
        return None, scores, after;
      }
      FoldOfSite(s, fold.target);
      FoldIsOfSite(s, fold.target);
      var evaluated, skipped;
      scores, evaluated, skipped, after := ScoreFold(g, s, fold, scores, seen);
      row := Some(Row(fold, evaluated, skipped));
    }
    VisitedFold(s, stations, fold.target, seen, after);
  }

  method RunLoocv(g: Geometry, s: Setup) returns (r: Outcome)
    requires ValidGeometry(g) && OnePlaceEach(s.sites)
    ensures r.Rejected? <==> s.foldDatum && s.defaults.Some? && s.defaults.value != map[]
    ensures r.NoReference? <==> !r.Rejected? && exists site <- s.sites :: WithoutDatum(s, FoldFor(Stations(s), site))
    ensures r.Validated? ==> forall key :: key in r.common <==> CommonKey(g, s, key)
    ensures r.Validated? ==> forall model <- s.models ::
              model in r.scores && r.scores[model].Keys == r.common
              && forall key <- r.common :: Some(r.scores[model][key]) == ScoreAt(g, s, model, key)
    ensures r.Validated? ==>
              && |r.rows| == |Stations(s)| && r.skipped == SkippedIn(r.rows)
              && forall i :: 0 <= i < |r.rows| ==> r.rows[i] == RowOf(s, FoldFor(Stations(s), Stations(s)[i]))
  {
    hide ValidGeometry, ScoresSoFar, ScoreAt, Visited, Stations, RowOf, SkippedIn, Others, WithoutDatum, CommonKey;
    if s.foldDatum && s.defaults.Some? && s.defaults.value != map[] {
      return Rejected;
    }
    StationsAre(s);
    var stations := Stations(s);
    var folds := LoocvFolds(stations);
    var scores: map<Model, map<Key, Scored>> := map model | model in s.models :: map[];
    var rows: seq<Row>, skipped := [], 0;
    ghost var seen: seq<Key> := [];
    NothingSoFar(g, s, scores);
    for i := 0 to |folds|
      invariant ScoresSoFar(g, s, scores, seen) && Visited(s, stations[..i], seen)
      invariant |rows| == i && skipped == SkippedIn(rows)
      invariant forall j :: 0 <= j < i ==> rows[j] == RowOf(s, FoldFor(stations, stations[j]))
      invariant forall j :: 0 <= j < i ==> !WithoutDatum(s, FoldFor(stations, stations[j]))
    {
      assert stations[..i + 1] == stations[..i] + [stations[i]] && stations[i] in stations;
      var row;
      row, scores, seen := TakeFold(g, s, folds[i], scores, stations[..i], seen);
      if row.None? {
        return NoReference;
      }
      SkippedSnoc(rows, row.value);
      rows, skipped := rows + [row.value], skipped + row.value.skipped;
    }
    assert stations[..|folds|] == stations;
    var common, shared := Compare(g, s, scores, seen);
    return Validated(rows, common, shared, skipped);
  }

  lemma NothingSoFar(g: Geometry, s: Setup, scores: map<Model, map<Key, Scored>>)
    requires ValidGeometry(g) && scores == map model | model in s.models :: map[]
    ensures ScoresSoFar(g, s, scores, []) && Visited(s, [], []) && SkippedIn([]) == 0
  {}

  lemma FoldIsOfSite(s: Setup, site: Site)
    requires SiteOf(Stations(s), site.station) == Some(site)
    requires Admissible(s, FoldFor(Stations(s), site)) && !WithoutDatum(s, FoldFor(Stations(s), site))
    ensures IsFold(s, FoldFor(Stations(s), site)) && FoldFor(Stations(s), site).target == site
  {}

  lemma AllScored(g: Geometry, s: Setup, scores: map<Model, map<Key, Scored>>, seen: seq<Key>, model: Model, key: Key)
    requires ValidGeometry(g) && ScoresSoFar(g, s, scores, seen) && Visited(s, Stations(s), seen) && model in s.models
    requires forall site <- Stations(s) :: !WithoutDatum(s, FoldFor(Stations(s), site))
    ensures model in scores && (key in scores[model] <==> ScoreAt(g, s, model, key).Some?)
    ensures key in scores[model] ==> Some(scores[model][key]) == ScoreAt(g, s, model, key)
  {
    hide ValidGeometry, CellOf, ScoreCell, Stations, ScoresOf, FoldFor, WithoutDatum, Admissible;
    ScoresOfAt(g, s, model, seen, key);
    SiteOfIs(Stations(s), key.station);
  }

  // ----- what a score is computed from

  /** A reference's value less the offset: observed where it was, else its default, else none. */
  ghost predicate GivenAs(s: Setup, r: Reference, site: Site, epoch: string, satellite: string, offset: real) {
    var key := Key(epoch, satellite, site.station);
    && r.station == site.station && r.at == site.at
    && (key in s.observed ==> r.value == Some(s.observed[key] - offset))
    && (key !in s.observed && s.defaults.Some? && site.station in s.defaults.value ==>
          r.value == Some(s.defaults.value[site.station] - offset))
    && (key !in s.observed && (s.defaults.None? || site.station !in s.defaults.value) ==> r.value.None?)
  }

  /** What is taken from every value: the datum's own, when there is a datum with a name. */
  ghost predicate OffsetIs(s: Setup, references: seq<Site>, epoch: string, satellite: string, offset: real) {
    if s.foldDatum && references != [] && references[0].station != "" then
      var key := Key(epoch, satellite, references[0].station);
      key in s.observed && offset == s.observed[key]
    else offset == 0.0
  }

  /**
   * A score is of an observed key with enough other stations: the prediction with power 2 from all other
   * stations, in order, at the held-out one, and what remains of the observed value.
   */
  lemma ScoreIsOf(g: Geometry, s: Setup, model: Model, key: Key)
    requires ValidGeometry(g) && ScoreAt(g, s, model, key).Some?
    ensures key in s.observed
    ensures exists target <- s.sites, references: seq<Reference>, offset: real ::
              var others := Others(Stations(s), key.station);
              && target.station == key.station && |references| == |others| >= s.minRefs
              && OffsetIs(s, others, key.epoch, key.satellite, offset)
              && (forall i :: 0 <= i < |others| ==> GivenAs(s, references[i], others[i], key.epoch, key.satellite, offset))
              && var score := ScoreAt(g, s, model, key).value;
                 && Predicted(g, model, 2.0, references, target.at) == Some(score.predicted)
                 && score.residual == s.observed[key] - offset - score.predicted
  {
    hide ValidGeometry, Stations, Predicted, Others;
    StationsAre(s);
    SiteOfIs(Stations(s), key.station);
    var target := SiteOf(Stations(s), key.station).value;
    var fold := FoldFor(Stations(s), target);
    var offset := OffsetOf(s, key.epoch, key.satellite, DatumOf(s, fold)).value;
    var references := ReferencesAt(s, fold.references, key.epoch, key.satellite, offset);
    assert target in s.sites;
    forall i | 0 <= i < |fold.references|
      ensures GivenAs(s, references[i], fold.references[i], key.epoch, key.satellite, offset)
    {
      ReferenceIsGiven(s, fold.references[i], key.epoch, key.satellite, offset);
    }
    assert OffsetIs(s, fold.references, key.epoch, key.satellite, offset);
  }

  lemma ReferenceIsGiven(s: Setup, site: Site, epoch: string, satellite: string, offset: real)
    ensures GivenAs(s, ReferenceAt(s, site, epoch, satellite, offset), site, epoch, satellite, offset)
  {}

  // ----- a held-out value never reaches its own predictions

  /** Only values at one station differ, and the same keys are observed. */
  predicate DifferOnlyAt(s: Setup, t: Setup, station: string) {
    && t == s.(observed := t.observed) && t.observed.Keys == s.observed.Keys
    && forall key <- s.observed :: key.station != station ==> t.observed[key] == s.observed[key]
  }

  lemma HeldOutCell(s: Setup, t: Setup, fold: Fold, epoch: string, satellite: string)
    requires DifferOnlyAt(s, t, fold.target.station)
    requires forall site <- fold.references :: site.station != fold.target.station
    ensures var key := Key(epoch, satellite, fold.target.station);
            var c, d := CellOf(s, fold, epoch, satellite), CellOf(t, fold, epoch, satellite);
            && (c.Skipped? <==> d.Skipped?) && (c.Compared? ==> key in s.observed)
            && (c.Compared? ==> d.references == c.references
                                && d.observed - c.observed == t.observed[key] - s.observed[key])
  {
    assert OffsetOf(s, epoch, satellite, DatumOf(s, fold)) == OffsetOf(t, epoch, satellite, DatumOf(t, fold)) by {
      if fold.references != [] {
        assert fold.references[0] in fold.references;
      }
    }
    forall offset ensures ReferencesAt(s, fold.references, epoch, satellite, offset)
                       == ReferencesAt(t, fold.references, epoch, satellite, offset)
    {
      forall i | 0 <= i < |fold.references|
        ensures ReferenceAt(s, fold.references[i], epoch, satellite, offset)
             == ReferenceAt(t, fold.references[i], epoch, satellite, offset)
      {
        assert fold.references[i] in fold.references;
      }
    }
  }

  /**
   * With the observed keys fixed, whatever the values at a held-out station are, each model predicts
   * the same there or not at all, the same keys are compared, and a residual moves with its value.
   */
  lemma NoLeakage(g: Geometry, s: Setup, t: Setup, model: Model, key: Key)
    requires ValidGeometry(g) && DifferOnlyAt(s, t, key.station)
    ensures var a, b := ScoreAt(g, s, model, key), ScoreAt(g, t, model, key);
            && (a.Some? <==> b.Some?) && (a.Some? ==> key in s.observed)
            && (a.Some? ==> b.value.predicted == a.value.predicted
                            && b.value.residual - a.value.residual == t.observed[key] - s.observed[key])
  {
    hide ValidGeometry, CellOf, Stations, Predicted;
    var target := SiteOf(Stations(s), key.station);
    assert Stations(s) == Stations(t) by {
      SameStations(s, t);
    }
    SiteOfIs(Stations(s), key.station);
    if target.Some? {
      HeldOutCell(s, t, FoldFor(Stations(s), target.value), key.epoch, key.satellite);
    }
  }

  lemma SameStations(s: Setup, t: Setup)
    requires s.sites == t.sites
    ensures Stations(s) == Stations(t)
  {}

  lemma NoLeakageInComparison(g: Geometry, s: Setup, t: Setup, key: Key)
    requires ValidGeometry(g) && DifferOnlyAt(s, t, key.station)
    ensures CommonKey(g, s, key) <==> CommonKey(g, t, key)
  {
    hide ValidGeometry, ScoreAt;
    forall model ensures ScoreAt(g, s, model, key).Some? <==> ScoreAt(g, t, model, key).Some? {
      NoLeakage(g, s, t, model, key);
    }
  }

  // ----- a constant common to all stations

  /** Every station's value raised by a constant of the epoch and satellite. */
  function Raised(s: Setup, c: (string, string) -> real): Setup {
    s.(observed := map key | key in s.observed :: s.observed[key] + c(key.epoch, key.satellite))
  }

  predicate NoDefaults(s: Setup) { s.defaults.None? || s.defaults.value == map[] }

  lemma RaisedValue(s: Setup, c: (string, string) -> real, epoch: string, satellite: string, station: string)
    requires NoDefaults(s)
    ensures var value := ReferenceValue(s, epoch, satellite, station);
            ReferenceValue(Raised(s, c), epoch, satellite, station)
            == if value.None? then None else Some(value.value + c(epoch, satellite))
  {}

  lemma RaisedOffset(s: Setup, c: (string, string) -> real, epoch: string, satellite: string, datum: string)
    requires datum != ""
    ensures var offset := OffsetOf(s, epoch, satellite, Some(datum));
            OffsetOf(Raised(s, c), epoch, satellite, Some(datum))
            == if offset.None? then None else Some(offset.value + c(epoch, satellite))
  {}

  /** The constant of the datum takes away the constant of each reference. */
  lemma DatumReferences(s: Setup, c: (string, string) -> real, sites: seq<Site>, epoch: string, satellite: string, offset: real)
    requires NoDefaults(s)
    ensures ReferencesAt(Raised(s, c), sites, epoch, satellite, offset + c(epoch, satellite))
            == ReferencesAt(s, sites, epoch, satellite, offset)
  {
    hide Raised, ReferenceValue;
    forall i | 0 <= i < |sites| {
      RaisedValue(s, c, epoch, satellite, sites[i].station);
    }
  }

  lemma DatumCell(s: Setup, c: (string, string) -> real, fold: Fold, epoch: string, satellite: string)
    requires NoDefaults(s) && DatumOf(s, fold).Some? && DatumOf(s, fold).value != ""
    ensures CellOf(Raised(s, c), fold, epoch, satellite) == CellOf(s, fold, epoch, satellite)
  {
    hide OffsetOf, ReferencesAt;
    var offset := OffsetOf(s, epoch, satellite, DatumOf(s, fold));
    RaisedOffset(s, c, epoch, satellite, DatumOf(s, fold).value);
    if offset.Some? {
      DatumReferences(s, c, fold.references, epoch, satellite, offset.value);
    }
  }

  predicate NoOffset(s: Setup, fold: Fold) { DatumOf(s, fold).None? || DatumOf(s, fold).value == "" }

  lemma RaisedReference(s: Setup, c: (string, string) -> real, site: Site, epoch: string, satellite: string)
    requires NoDefaults(s)
    ensures ReferenceAt(Raised(s, c), site, epoch, satellite, 0.0)
            == RaiseReference(c(epoch, satellite))(ReferenceAt(s, site, epoch, satellite, 0.0))
  {}

  lemma RaisedReferences(s: Setup, c: (string, string) -> real, sites: seq<Site>, epoch: string, satellite: string)
    requires NoDefaults(s)
    ensures ReferencesAt(Raised(s, c), sites, epoch, satellite, 0.0)
            == Map(RaiseReference(c(epoch, satellite)), ReferencesAt(s, sites, epoch, satellite, 0.0))
  {
    hide ReferenceAt, RaiseReference, Raised;
    forall i | 0 <= i < |sites| {
      RaisedReference(s, c, sites[i], epoch, satellite);
    }
  }

  lemma PlainCell(s: Setup, c: (string, string) -> real, fold: Fold, epoch: string, satellite: string)
    requires NoOffset(s, fold) && NoDefaults(s)
    ensures var cell := CellOf(s, fold, epoch, satellite);
            var more := c(epoch, satellite);
            CellOf(Raised(s, c), fold, epoch, satellite)
            == if cell.Skipped? then Skipped
               else Compared(cell.observed + more, Map(RaiseReference(more), cell.references))
  {
    hide ReferencesAt, RaiseReference;
    RaisedReferences(s, c, fold.references, epoch, satellite);
  }

  /** A datum with an empty name is taken for none: a common constant changes the score unless it is zero. */
  lemma EmptyNameKeepsConstant(g: Geometry, s: Setup, c: (string, string) -> real, model: Model, fold: Fold,
                               epoch: string, satellite: string)
    requires ValidGeometry(g) && NoDefaults(s) && DatumOf(s, fold) == Some("")
    requires ScoreCell(g, model, CellOf(s, fold, epoch, satellite), fold.target.at).Some?
    ensures ScoreCell(g, model, CellOf(Raised(s, c), fold, epoch, satellite), fold.target.at)
            == ScoreCell(g, model, CellOf(s, fold, epoch, satellite), fold.target.at)
            <==> c(epoch, satellite) == 0.0
  {
    hide ValidGeometry, CellOf, Predicted;
    PlainCell(s, c, fold, epoch, satellite);
    if c(epoch, satellite) == 0.0 {
      RaisedByNothing(CellOf(s, fold, epoch, satellite).references, c(epoch, satellite));
    }
  }

  lemma RaisedByNothing(references: seq<Reference>, c: real)
    requires c == 0.0
    ensures Map(RaiseReference(c), references) == references
  {}

  lemma NothingBeforeEmpty(s: string)
    requires LexLe(s, "")
    ensures s == ""
  {}

  /** A nameless station is the first of the sorted stations. */
  lemma NamelessIsFirst(s: Setup)
    requires exists site <- s.sites :: site.station == ""
    ensures Stations(s) != [] && Stations(s)[0].station == ""
  {
    ByStationIsPreorder();
    var site :| site in s.sites && site.station == "";
    FirstIsLeast(ByStation, s.sites);
    assert ByStation(Stations(s)[0], site);
    NothingBeforeEmpty(Stations(s)[0].station);
  }

  lemma {:induction false} FirstOfOthers(sites: seq<Site>, station: string)
    requires sites != [] && sites[0].station != station
    ensures Others(sites, station) != [] && Others(sites, station)[0] == sites[0]
  {
    if |sites| > 1 {
      FirstOfOthers(sites[..|sites| - 1], station);
    } else {
      assert sites[..0] == [];
    }
  }

  /** The fold datum has no name exactly when some station has none and it is not the held-out one. */
  lemma DatumIsNameless(s: Setup, target: Site)
    requires s.foldDatum && FoldFor(Stations(s), target).references != []
    ensures var datum := DatumOf(s, FoldFor(Stations(s), target));
            datum.Some? && (datum == Some("") <==> target.station != "" && exists site <- s.sites :: site.station == "")
  {
    hide Stations, Others;
    var references := FoldFor(Stations(s), target).references;
    StationsAre(s);
    assert references[0] in references;
    if target.station != "" && exists site <- s.sites :: site.station == "" {
      NamelessIsFirst(s);
      FirstOfOthers(Stations(s), target.station);
    }
  }

  /**
   * With a fold-local datum, adding a constant of the epoch and satellite to all stations changes no
   * prediction and no residual of any model when the held-out station is nameless or no station is;
   * otherwise the first reference, which has no name, is taken for no datum, and a score stays the
   * same exactly when the constant is zero.
   */
  lemma DatumRemovesCommonConstant(g: Geometry, s: Setup, c: (string, string) -> real, model: Model, key: Key)
    requires ValidGeometry(g) && s.foldDatum && NoDefaults(s)
    ensures key.station == "" || (forall site <- s.sites :: site.station != "")
            ==> ScoreAt(g, Raised(s, c), model, key) == ScoreAt(g, s, model, key)
    ensures ScoreAt(g, s, model, key).Some?
            ==> (ScoreAt(g, Raised(s, c), model, key) == ScoreAt(g, s, model, key)
                 <==> key.station == "" || (forall site <- s.sites :: site.station != "")
                      || c(key.epoch, key.satellite) == 0.0)
  {
    hide ValidGeometry, CellOf, Stations, ScoreCell, DatumOf, FoldFor, Raised;
    var t := Raised(s, c);
    RaisedKeeps(s, c);
    SameStations(s, t);
    SiteOfIs(Stations(s), key.station);
    var target := SiteOf(Stations(s), key.station);
    if target.Some? {
      var fold := FoldFor(Stations(s), target.value);
      FoldIsFor(s, target.value);
      if fold.references != [] {
        DatumIsNameless(s, target.value);
        if DatumOf(s, fold) != Some("") {
          DatumCell(s, c, fold, key.epoch, key.satellite);
        } else if ScoreAt(g, s, model, key).Some? {
          EmptyNameKeepsConstant(g, s, c, model, fold, key.epoch, key.satellite);
        }
      }
    }
  }

  lemma FoldIsFor(s: Setup, target: Site)
    ensures FoldFor(Stations(s), target).target == target
  {}

  /** Without a datum the same holds of the residuals of the nearest and inverse-distance models. */
  lemma ResidualsIgnoreCommonConstant(g: Geometry, s: Setup, c: (string, string) -> real, model: Model, key: Key)
    requires ValidGeometry(g) && !s.foldDatum && NoDefaults(s) && (model.Nearest? || model.Idw?)
    ensures var a, b := ScoreAt(g, s, model, key), ScoreAt(g, Raised(s, c), model, key);
            && (a.Some? <==> b.Some?)
            && (a.Some? ==> b.value.residual == a.value.residual
                            && b.value.predicted == a.value.predicted + c(key.epoch, key.satellite))
  {
    hide ValidGeometry, CellOf, Stations, Predicted;
    SameStations(s, Raised(s, c));
    var target := SiteOf(Stations(s), key.station);
    if target.Some? {
      var fold := FoldFor(Stations(s), target.value);
      var cell := CellOf(s, fold, key.epoch, key.satellite);
      PlainCell(s, c, fold, key.epoch, key.satellite);
      if cell.Compared? {
        RaisingRaises(g, model, POWER, cell.references, fold.target.at, c(key.epoch, key.satellite));
      }
    }
  }

  // ----- a station without a name

  function NamelessSetup(p: Point, q: Point, r: Point): Setup {
    Setup(["e"], ["G01"], [Site("", p), Site("A", q), Site("B", r)],
          map[Key("e", "G01", "") := 0.0, Key("e", "G01", "A") := 0.0, Key("e", "G01", "B") := 0.0],
          [Zero], DEFAULT_MIN_REFS, None, true)
  }

  lemma NamelessStations(a: Site, b: Site, c: Site)
    requires a.station == "" && b.station == "A" && c.station == "B"
    ensures SortBy(ByStation, [a, b, c]) == [a, b, c]
  {
    assert [a, b, c][1..] == [b, c] && [b, c][1..] == [c];
    assert SortBy(ByStation, [c]) == [c];
    assert LexLe("A", "B") && LexLe("", "A");
    assert SortBy(ByStation, [b, c]) == [b, c];
  }

  lemma NamelessOthers(a: Site, b: Site, c: Site)
    requires a.station == "" && b.station == "A" && c.station == "B"
    ensures Others([a, b, c], "A") == [a, c] && SiteOf([a, b, c], "A") == Some(b)
  {
    assert [a, b, c][..2] == [a, b] && [a, b][..1] == [a] && [a][..0] == [];
    assert Others([a], "A") == [a];
    assert Others([a, b], "A") == [a];
    assert Others([a, b, c], "A") == [a] + [c];
    assert [a, b, c][1..] == [b, c];
  }

  lemma NamelessFold(p: Point, q: Point, r: Point)
    ensures var s := NamelessSetup(p, q, r);
            && Stations(s) == s.sites && SiteOf(Stations(s), "A") == Some(Site("A", q))
            && FoldFor(Stations(s), Site("A", q)) == Fold(Site("A", q), [Site("", p), Site("B", r)])
  {
    hide SortBy, Others, SiteOf, ByStation;
    NamelessStations(Site("", p), Site("A", q), Site("B", r));
    NamelessOthers(Site("", p), Site("A", q), Site("B", r));
  }

  /** With a nameless first station, one metre on all stations shows in the residual of the zero model. */
  lemma NamelessDatumKeepsConstant(g: Geometry, p: Point, q: Point, r: Point)
    requires ValidGeometry(g)
    ensures var s := NamelessSetup(p, q, r);
            ScoreAt(g, Raised(s, (e: string, v: string) => 1.0), Zero, Key("e", "G01", "A"))
            != ScoreAt(g, s, Zero, Key("e", "G01", "A"))
  {
    hide ValidGeometry, Stations, FoldFor, SiteOf, Predicted, ReferencesAt, Raised;
    var s := NamelessSetup(p, q, r);
    var c := (e: string, v: string) => 1.0;
    var fold := Fold(Site("A", q), [Site("", p), Site("B", r)]);
    NamelessFold(p, q, r);
    RaisedKeeps(s, c);
    SameStations(s, Raised(s, c));
    ZeroPredictsZero(g, CellOf(s, fold, "e", "G01").references, q);
    EmptyNameKeepsConstant(g, s, c, Zero, fold, "e", "G01");
  }

  lemma RaisedKeeps(s: Setup, c: (string, string) -> real)
    ensures var t := Raised(s, c);
            t == s.(observed := t.observed)
  {}

  lemma ZeroPredictsZero(g: Geometry, references: seq<Reference>, target: Point)
    requires ValidGeometry(g)
    ensures Predicted(g, Zero, POWER, references, target) == Some(0.0)
  {}
}
