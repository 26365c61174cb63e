/** Combining the raw shards of one performance artifact into per-group statistics. */
module MetricShards {
  import opened ByteStrings
  import opened Results
  import opened Violations
  import opened OrderStatistics
  import Sorting

  /** One measured process: its identity, its representative sample and its raw samples. */
  datatype Process = Process(id: Bytes, representative: real, samples: seq<real>)

  /** What every shard and group must share; structured values are held as text. */
  datatype Setup = Setup(warmups: seq<Bytes>, fields: Bytes, protocol: Bytes)

  /** What the shards of one group must share. */
  datatype Cell = Cell(supported: bool, reason: Option<Bytes>, stoppedAt: Option<Bytes>,
                       metadata: Bytes, cohort: Bytes, warmups: seq<Bytes>)

  datatype RawGroup = RawGroup(name: Bytes, setup: Setup, cell: Cell, processes: seq<Process>, reported: Option<Statistics>)

  datatype Combined = Combined(setup: Setup, cell: Cell, ids: set<Bytes>, representatives: seq<real>,
                               raw: seq<real>, reported: seq<Statistics>, records: nat)

  datatype Thresholds = Thresholds(p50Max: Option<real>, p95Max: Option<real>, max: Option<real>, maxExclusive: Option<real>)

  // ----- what a list of processes contributes

  function Ids(ps: seq<Process>): set<Bytes> {
    set i | 0 <= i < |ps| :: ps[i].id
  }

  function Representatives(ps: seq<Process>): (r: seq<real>)
    ensures |r| == |ps|
  {
    seq(|ps|, i requires 0 <= i < |ps| => ps[i].representative)
  }

  function Raw(ps: seq<Process>): seq<real> {
    if ps == [] then [] else Raw(ps[..|ps| - 1]) + ps[|ps| - 1].samples
  }

  ghost predicate Sampled(ps: seq<Process>) {
    forall i :: 0 <= i < |ps| ==> ps[i].samples != []
  }

  lemma {:induction false} RawConcat(a: seq<Process>, b: seq<Process>)
    ensures Raw(a + b) == Raw(a) + Raw(b)
  {
    hide Raw;
    if b == [] {
      NoRaw();
      assert a + b == a;
    } else {
      var init, p := b[..|b| - 1], b[|b| - 1];
      RawConcat(a, init);
      RawSnoc(a + init, p);
      RawSnoc(init, p);
      assert b == init + [p] && a + b == a + init + [p];
    }
  }

  lemma NoRaw()
    ensures Raw([]) == []
  {}

  lemma RawSnoc(ps: seq<Process>, p: Process)
    ensures Raw(ps + [p]) == Raw(ps) + p.samples
  {
    assert (ps + [p])[..|ps|] == ps;
  }

  lemma IdsConcat(a: seq<Process>, b: seq<Process>)
    ensures Ids(a + b) == Ids(a) + Ids(b)
  {
    forall x | x in Ids(a) + Ids(b) ensures x in Ids(a + b) {
      if x in Ids(a) {
        var i :| 0 <= i < |a| && a[i].id == x;
        assert (a + b)[i].id == x;
      } else {
        var i :| 0 <= i < |b| && b[i].id == x;
        assert (a + b)[|a| + i].id == x;
      }
    }
  }

  lemma RepresentativesConcat(a: seq<Process>, b: seq<Process>)
    ensures Representatives(a + b) == Representatives(a) + Representatives(b)
  {}

  // ----- the records of one name

  function ProcessesOf(all: seq<RawGroup>, name: Bytes): seq<Process> {
    if all == [] then []
    else
      var g := all[|all| - 1];
      ProcessesOf(all[..|all| - 1], name) + if g.name == name then g.processes else []
  }

  function ReportedOf(all: seq<RawGroup>, name: Bytes): seq<Statistics> {
    if all == [] then []
    else
      var g := all[|all| - 1];
      ReportedOf(all[..|all| - 1], name) + if g.name == name && g.reported.Some? then [g.reported.value] else []
  }

  function RecordsOf(all: seq<RawGroup>, name: Bytes): nat {
    if all == [] then 0
    else RecordsOf(all[..|all| - 1], name) + if all[|all| - 1].name == name then 1 else 0
  }

  /** The position of the first record of a name, or the length. */
  function First(all: seq<RawGroup>, name: Bytes): (k: nat)
    ensures k <= |all|
    ensures k < |all| ==> all[k].name == name
    ensures forall i :: 0 <= i < k ==> all[i].name != name
  {
    if all == [] then 0
    else
      var k := First(all[..|all| - 1], name);
      if k < |all| - 1 then k else if all[|all| - 1].name == name then k else |all|
  }

  function Names(all: seq<RawGroup>): set<Bytes> {
    set i | 0 <= i < |all| && all[i].name != [] :: all[i].name
  }

  /** Everything the shards say about one name. */
  function Collected(all: seq<RawGroup>, name: Bytes): Combined
    requires First(all, name) < |all|
  {
    var ps, first := ProcessesOf(all, name), all[First(all, name)];
    Combined(first.setup, first.cell, Ids(ps), Representatives(ps), Raw(ps), ReportedOf(all, name), RecordsOf(all, name))
  }

  /** What a further record must fulfil to be added silently. */
  ghost predicate Fits(all: seq<RawGroup>, g: RawGroup) {
    && (all != [] ==> all[0].setup == g.setup)
    && g.name != []
    && (First(all, g.name) < |all| ==> all[First(all, g.name)].cell == g.cell)
    && Ids(ProcessesOf(all, g.name)) !! Ids(g.processes)
  }

  ghost predicate AllFit(all: seq<RawGroup>) {
    forall n :: 0 <= n < |all| ==> Fits(all[..n], all[n])
  }

  /** One setup throughout, named groups, one cell a name, no process measured twice. */
  ghost predicate Consistent(all: seq<RawGroup>) {
    && (forall i :: 0 <= i < |all| ==> all[i].name != [] && all[i].setup == all[0].setup)
    && (forall i, j :: 0 <= i < j < |all| && all[i].name == all[j].name ==>
          all[i].cell == all[j].cell && Ids(all[i].processes) !! Ids(all[j].processes))
  }

  lemma {:induction false} ProcessFrom(all: seq<RawGroup>, name: Bytes, id: Bytes)
    ensures id in Ids(ProcessesOf(all, name)) <==>
      exists i :: 0 <= i < |all| && all[i].name == name && id in Ids(all[i].processes)
  {
    hide Ids;
    if all == [] {
      NoIds();
    } else {
      var init, g := all[..|all| - 1], all[|all| - 1];
      ProcessFrom(init, name, id);
      IdsConcat(ProcessesOf(init, name), if g.name == name then g.processes else []);
      NoIds();
      assert forall i :: 0 <= i < |init| ==> init[i] == all[i];
    }
  }

  lemma NoIds()
    ensures Ids([]) == {}
  {}

  /** The running checks, each against the first record or the union so far, amount to
      pairwise agreement. */
  lemma ConsistentMeaning(all: seq<RawGroup>)
    ensures AllFit(all) <==> Consistent(all)
  {
    hide Ids;
    if AllFit(all) {
      forall i | 0 <= i < |all| ensures all[i].name != [] && all[i].setup == all[0].setup {
        assert Fits(all[..i], all[i]);
      }
      forall i, j | 0 <= i < j < |all| && all[i].name == all[j].name
        ensures all[i].cell == all[j].cell && Ids(all[i].processes) !! Ids(all[j].processes)
      {
        PairFits(all, i, j);
      }
    }
    if Consistent(all) {
      forall n | 0 <= n < |all| ensures Fits(all[..n], all[n]) {
        ConsistentFits(all, n);
      }
    }
  }

  lemma PairFits(all: seq<RawGroup>, i: nat, j: nat)
    requires AllFit(all) && i < j < |all| && all[i].name == all[j].name
    ensures all[i].cell == all[j].cell && Ids(all[i].processes) !! Ids(all[j].processes)
  {
    hide Ids, AllFit;
    var name := all[j].name;
    FitsAt(all, i);
    FitsAt(all, j);
    var k := First(all[..j], name);
    assert k <= i by { assert all[..j][i] == all[i]; }
    FirstPrefix(all, i, j, name);
    forall id | id in Ids(all[i].processes) ensures id !in Ids(all[j].processes) {
      ProcessFrom(all[..j], name, id);
      assert all[..j][i] == all[i];
    }
  }

  lemma FitsAt(all: seq<RawGroup>, n: nat)
    requires AllFit(all) && n < |all|
    ensures Fits(all[..n], all[n])
  {}

  lemma FirstPrefix(all: seq<RawGroup>, i: nat, j: nat, name: Bytes)
    requires i < j < |all| && all[i].name == name
    ensures First(all[..j], name) <= i
    ensures First(all[..i], name) == First(all[..j], name)
  {
    var a, b := First(all[..i], name), First(all[..j], name);
    assert all[..j][i] == all[i];
    assert forall k :: 0 <= k < i ==> all[..i][k] == all[..j][k];
  }

  lemma ConsistentFits(all: seq<RawGroup>, n: nat)
    requires Consistent(all) && n < |all|
    ensures Fits(all[..n], all[n])
  {
    hide Ids;
    var name := all[n].name;
    assert forall i :: 0 <= i < n ==> all[..n][i] == all[i];
    forall id | id in Ids(all[n].processes) ensures id !in Ids(ProcessesOf(all[..n], name)) {
      ProcessFrom(all[..n], name, id);
    }
  }

  // ----- the running table

  /** `groups` holds, for each name met so far, everything the records say about it. */
  ghost predicate Tabulates(groups: map<Bytes, Combined>, all: seq<RawGroup>) {
    && groups.Keys == Names(all)
    && forall name :: name in groups ==> First(all, name) < |all| && groups[name] == Collected(all, name)
  }

  function Fresh(g: RawGroup): Combined {
    Combined(g.setup, g.cell, {}, [], [], [], 0)
  }

  function Extended(c: Combined, g: RawGroup): Combined {
    c.(ids := c.ids + Ids(g.processes),
       representatives := c.representatives + Representatives(g.processes),
       raw := c.raw + Raw(g.processes),
       reported := if g.reported.Some? then c.reported + [g.reported.value] else c.reported,
       records := c.records + 1)
  }

  lemma CollectedOther(all: seq<RawGroup>, g: RawGroup, name: Bytes)
    requires First(all, name) < |all| && g.name != name
    ensures First(all + [g], name) < |all + [g]| && Collected(all + [g], name) == Collected(all, name)
  {
    hide Ids, Representatives, Raw;
    assert (all + [g])[..|all|] == all;
    assert ProcessesOf(all + [g], name) == ProcessesOf(all, name);
  }

  lemma CollectedSame(all: seq<RawGroup>, g: RawGroup)
    ensures var c := if First(all, g.name) < |all| then Collected(all, g.name) else Fresh(g);
      First(all + [g], g.name) < |all + [g]| && Collected(all + [g], g.name) == Extended(c, g)
  {
    hide Ids, Representatives, Raw;
    assert (all + [g])[..|all|] == all;
    var ps := ProcessesOf(all, g.name);
    IdsConcat(ps, g.processes);
    RepresentativesConcat(ps, g.processes);
    RawConcat(ps, g.processes);
    if First(all, g.name) == |all| {
      NothingYet(all, g.name);
      assert [] + g.processes == g.processes;
    }
  }

  lemma {:induction false} NothingYet(all: seq<RawGroup>, name: Bytes)
    requires First(all, name) == |all|
    ensures ProcessesOf(all, name) == [] && ReportedOf(all, name) == [] && RecordsOf(all, name) == 0
    ensures Ids([]) == {} && Representatives([]) == [] && Raw([]) == []
  {
    if all != [] { NothingYet(all[..|all| - 1], name); }
  }

  lemma NamesSnoc(all: seq<RawGroup>, g: RawGroup)
    ensures Names(all + [g]) == Names(all) + if g.name == [] then {} else {g.name}
  {
    var longer := all + [g];
    assert forall i :: 0 <= i < |all| ==> longer[i] == all[i];
    assert longer[|all|] == g;
  }

  lemma KnownName(groups: map<Bytes, Combined>, all: seq<RawGroup>, name: Bytes)
    requires Tabulates(groups, all) && name != []
    ensures name in groups <==> First(all, name) < |all|
  {
    hide Collected;
  }

  lemma TabulatesStep(groups: map<Bytes, Combined>, all: seq<RawGroup>, g: RawGroup)
    requires Tabulates(groups, all)
    ensures Tabulates(
      if g.name == [] then groups
      else groups[g.name := Extended(if g.name in groups then groups[g.name] else Fresh(g), g)], all + [g])
  {
    hide Collected, Fresh, Extended, Names, First;
    NamesSnoc(all, g);
    NamedKeys(all);
    if g.name != [] {
      KnownName(groups, all, g.name);
      CollectedSame(all, g);
    }
    forall name | name in groups && name != g.name
      ensures First(all + [g], name) < |all + [g]| && Collected(all + [g], name) == groups[name]
    {
      CollectedOther(all, g, name);
    }
  }

  lemma NamedKeys(all: seq<RawGroup>)
    ensures [] !in Names(all)
  {}

  class Cohorts {
    var groups: map<Bytes, Combined>
    var shared: Option<Setup>
    ghost var all: seq<RawGroup>

    ghost predicate Valid()
      reads this
    {
      Tabulates(groups, all) && shared == if all == [] then None else Some(all[0].setup)
    }

    constructor ()
      ensures Valid() && all == []
    {
      groups, shared, all := map[], None, [];
    }

    method CheckSetup(first: Setup, g: RawGroup, violations: ViolationList)
      modifies violations
      ensures old(violations.items) <= violations.items
      ensures violations.items == old(violations.items) <==> first == g.setup
    {
      if first.warmups != g.setup.warmups {
        violations.Append(WarmupDrift);
      }
      if first.fields != g.setup.fields {
        violations.Append(ProtocolFieldsDrift);
      }
      if first.protocol != g.setup.protocol {
        violations.Append(ProtocolDrift);
      }
    }

    method CheckCell(first: Cell, cell: Cell, violations: ViolationList)
      modifies violations
      ensures old(violations.items) <= violations.items
      ensures violations.items == old(violations.items) <==> first == cell
    {
      if first.supported != cell.supported {
        violations.Append(StatusDrift);
      }
      if first.reason != cell.reason || first.stoppedAt != cell.stoppedAt {
        violations.Append(DiagnosticDrift);
      }
      if first.metadata != cell.metadata {
        violations.Append(MetadataDrift);
      }
      if first.cohort != cell.cohort {
        violations.Append(CohortDrift);
      }
      if first.warmups != cell.warmups {
        violations.Append(WarmupDrift);
      }
    }

    method CheckShard(c: Combined, g: RawGroup, violations: ViolationList)
      modifies violations
      ensures old(violations.items) <= violations.items
      ensures violations.items == old(violations.items) <==>
        c.setup.fields == g.setup.fields && c.setup.protocol == g.setup.protocol && c.ids !! Ids(g.processes)
    {
      hide Ids;
      if c.setup.fields != g.setup.fields {
        violations.Append(ProtocolFieldsDrift);
      }
      if c.setup.protocol != g.setup.protocol {
        violations.Append(ProtocolDrift);
      }
      Overlap(c.ids, Ids(g.processes));
      if c.ids * Ids(g.processes) != {} {
        violations.Append(DuplicateProcesses);
      }
    }

    /** One turn of the shard loop. */
    method Absorb(g: RawGroup, violations: ViolationList)
      requires Valid()
      modifies this, violations
      ensures Valid() && all == old(all) + [g]
      ensures old(violations.items) <= violations.items
      ensures AllFit(old(all)) ==> (violations.items == old(violations.items) <==> Fits(old(all), g))
    {
      hide Tabulates, Extended, Ids, Collected, AllFit, First;
      TabulatesStep(groups, all, g);
      ghost var before := all;
      all := all + [g];
      if shared.None? {
        shared := Some(g.setup);
      } else {
        CheckSetup(shared.value, g, violations);
      }
      if g.name == [] {
        violations.Append(EmptyGroupName);
        return;
      }
      LookUp(groups, before, g);
      var combined := if g.name in groups then groups[g.name] else Fresh(g);
      CheckCell(combined.cell, g.cell, violations);
      CheckShard(combined, g, violations);
      groups := groups[g.name := Extended(combined, g)];
    }
  }

  /** What the table's entry says of the records, and so of the checks against it. */
  lemma LookUp(groups: map<Bytes, Combined>, all: seq<RawGroup>, g: RawGroup)
    requires Tabulates(groups, all) && g.name != []
    ensures var c := if g.name in groups then groups[g.name] else Fresh(g);
      && c.ids == Ids(ProcessesOf(all, g.name))
      && (First(all, g.name) < |all| ==> c.cell == all[First(all, g.name)].cell)
      && (First(all, g.name) == |all| ==> c.cell == g.cell && c.setup == g.setup)
      && (AllFit(all) && all != [] && First(all, g.name) < |all| ==> c.setup == all[0].setup)
  {
    hide Ids, Representatives, Raw;
    KnownName(groups, all, g.name);
    if g.name in groups {
      if AllFit(all) {
        hide First;
        ConsistentMeaning(all);
      }
    } else {
      NothingYet(all, g.name);
    }
  }

  lemma Overlap(a: set<Bytes>, b: set<Bytes>)
    ensures a * b == {} <==> a !! b
  {
    assert forall x :: x in a * b <==> x in a && x in b;
  }

  // ----- the verdict on each group

  /** `validate_thresholds` finds nothing. */
  predicate Within(s: Statistics, t: Thresholds) {
    && (t.maxExclusive.Some? ==> s.max < t.maxExclusive.value)
    && (t.max.Some? ==> s.max <= t.max.value)
    && (t.p50Max.Some? ==> s.p50 <= t.p50Max.value)
    && (t.p95Max.Some? ==> s.p95 <= t.p95Max.value)
  }

  ghost predicate GroupAccepted(c: Combined, t: Thresholds) {
    if !c.cell.supported then c.records == 1
    else
      && |c.representatives| == 30 && |c.ids| == 30
      && c.ids !! Sorting.SetOf(c.cell.warmups)
      && var s := RecomputedStatistics(c.representatives, c.raw);
         && s.Ok? && Within(s.value, t)
         && forall i :: 0 <= i < |c.reported| ==> c.reported[i] == s.value
  }

  /** What a group adds to the results. */
  function Outcome(c: Combined): seq<Statistics> {
    var s := RecomputedStatistics(c.representatives, c.raw);
    if c.cell.supported && |c.representatives| == 30 && |c.ids| == 30 && s.Ok? then [s.value] else []
  }

  lemma StatisticsDefined(reps: seq<real>, raw: seq<real>)
    requires reps != [] && raw != []
    ensures RecomputedStatistics(reps, raw).Ok?
  {
    hide NearestRank, Max, CeilDiv;
    NearestRankGate(reps, 50, 100, 0.0);
    NearestRankGate(reps, 95, 100, 0.0);
  }

  method ValidateThresholds(s: Statistics, t: Thresholds, violations: ViolationList)
    modifies violations
    ensures old(violations.items) <= violations.items
    ensures violations.items == old(violations.items) <==> Within(s, t)
  {
    if t.maxExclusive.Some? && s.max >= t.maxExclusive.value {
      violations.Append(ThresholdViolated);
    }
    if t.max.Some? && s.max > t.max.value {
      violations.Append(ThresholdViolated);
    }
    if t.p50Max.Some? && s.p50 > t.p50Max.value {
      violations.Append(ThresholdViolated);
    }
    if t.p95Max.Some? && s.p95 > t.p95Max.value {
      violations.Append(ThresholdViolated);
    }
  }

  method CheckReported(reported: seq<Statistics>, s: Statistics, violations: ViolationList)
    modifies violations
    ensures old(violations.items) <= violations.items
    ensures violations.items == old(violations.items) <==> forall i :: 0 <= i < |reported| ==> reported[i] == s
  {
    for n := 0 to |reported|
      invariant old(violations.items) <= violations.items
      invariant violations.items == old(violations.items) <==> forall i :: 0 <= i < n ==> reported[i] == s
    {
      if reported[n] != s {
        violations.Append(WrongReportedStatistics);
      }
    }
  }

  method FinishGroup(c: Combined, t: Thresholds, violations: ViolationList) returns (outcome: seq<Statistics>)
    requires c.representatives != [] ==> c.raw != []
    modifies violations
    ensures old(violations.items) <= violations.items
    ensures violations.items == old(violations.items) <==> GroupAccepted(c, t)
    ensures outcome == Outcome(c)
  {
    hide Within, RecomputedStatistics;
    if !c.cell.supported {
      if c.records != 1 {
        violations.Append(RepeatedUnsupported);
      }
      return [];
    }
    if |c.representatives| != 30 || |c.ids| != 30 {
      violations.Append(WrongProcessCount);
      return [];
    }
    var warmups := Sorting.SetOf(c.cell.warmups);
    Overlap(c.ids, warmups);
    if c.ids * warmups != {} {
      violations.Append(WarmupsMeasured);
    }
    StatisticsDefined(c.representatives, c.raw);
    var s := RecomputedStatistics(c.representatives, c.raw).value;
    CheckReported(c.reported, s, violations);
    ValidateThresholds(s, t, violations);
    return [s];
  }

  // ----- the whole combination

  function Flat(shards: seq<seq<RawGroup>>): seq<RawGroup> {
    if shards == [] then [] else Flat(shards[..|shards| - 1]) + shards[|shards| - 1]
  }

  ghost predicate AllSampled(all: seq<RawGroup>) {
    forall i :: 0 <= i < |all| ==> Sampled(all[i].processes)
  }

  predicate Known(all: seq<RawGroup>, name: Bytes) {
    name != [] && First(all, name) < |all|
  }

  ghost predicate GroupsAccepted(all: seq<RawGroup>, names: set<Bytes>, t: Thresholds) {
    forall name :: name in names && Known(all, name) ==> GroupAccepted(Collected(all, name), t)
  }

  /** `combine_metric_shards` leaves the violation list as it was. */
  ghost predicate Accepted(all: seq<RawGroup>, required: Option<seq<Bytes>>, t: Thresholds) {
    && Consistent(all)
    && (required.Some? ==> Names(all) == Sorting.SetOf(required.value))
    && GroupsAccepted(all, Names(all), t)
  }

  /** The order of the results: the contract's, or the names in ascending order. */
  ghost function Order(all: seq<RawGroup>, required: Option<seq<Bytes>>): seq<Bytes> {
    if required.Some? && required.value != [] then required.value else Sorting.Sorted(Names(all))
  }

  ghost function Outcomes(all: seq<RawGroup>, order: seq<Bytes>): seq<Statistics> {
    if order == [] then []
    else
      var name := order[|order| - 1];
      Outcomes(all, order[..|order| - 1]) + if Known(all, name) then Outcome(Collected(all, name)) else []
  }

  method AbsorbAll(shards: seq<seq<RawGroup>>, violations: ViolationList) returns (cohorts: Cohorts)
    modifies violations
    ensures fresh(cohorts) && cohorts.Valid() && cohorts.all == Flat(shards)
    ensures old(violations.items) <= violations.items
    ensures violations.items == old(violations.items) <==> Consistent(Flat(shards))
  {
    hide Tabulates, Fits, AllFit, Consistent, Cohorts.Valid;
    cohorts := new Cohorts();
    NoneFit();
    assert Flat(shards[..0]) == [] by { assert shards[..0] == []; }
    for i := 0 to |shards|
      invariant fresh(cohorts) && cohorts.Valid() && cohorts.all == Flat(shards[..i])
      invariant old(violations.items) <= violations.items
      invariant violations.items == old(violations.items) <==> AllFit(cohorts.all)
    {
      var shard := shards[i];
      ghost var before := cohorts.all;
      for k := 0 to |shard|
        invariant fresh(cohorts) && cohorts.Valid() && cohorts.all == before + shard[..k]
        invariant old(violations.items) <= violations.items
        invariant violations.items == old(violations.items) <==> AllFit(cohorts.all)
      {
        AllFitSnoc(cohorts.all, shard[k]);
        cohorts.Absorb(shard[k], violations);
        assert shard[..k + 1] == shard[..k] + [shard[k]];
      }
      assert shard[..|shard|] == shard;
      FlatStep(shards, i);
    }
    assert shards[..|shards|] == shards;
    ConsistentMeaning(cohorts.all);
  }

  lemma NoneFit()
    ensures AllFit([])
  {}

  lemma AllFitSnoc(all: seq<RawGroup>, g: RawGroup)
    ensures AllFit(all + [g]) <==> AllFit(all) && Fits(all, g)
  {
    hide Fits;
    var longer := all + [g];
    assert forall n :: 0 <= n < |all| ==> longer[..n] == all[..n] && longer[n] == all[n];
    assert longer[..|all|] == all && longer[|all|] == g;
    if AllFit(longer) {
      assert Fits(longer[..|all|], longer[|all|]);
      forall n | 0 <= n < |all| ensures Fits(all[..n], all[n]) {
        assert Fits(longer[..n], longer[n]);
      }
    }
  }

  lemma FlatStep(shards: seq<seq<RawGroup>>, i: nat)
    requires i < |shards|
    ensures Flat(shards[..i + 1]) == Flat(shards[..i]) + shards[i]
  {
    assert shards[..i + 1][..i] == shards[..i];
  }

  /** `combine_metric_shards`. */
  method CombineMetricShards(shards: seq<seq<RawGroup>>, required: Option<seq<Bytes>>, t: Thresholds,
                             violations: ViolationList) returns (results: seq<Statistics>)
    requires AllSampled(Flat(shards))
    modifies violations
    ensures old(violations.items) <= violations.items
    ensures violations.items == old(violations.items) <==> Accepted(Flat(shards), required, t)
    ensures results == Outcomes(Flat(shards), Order(Flat(shards), required))
  {
    hide Tabulates, Consistent, GroupAccepted, Outcome, Outcomes, Collected, Names, AllSampled, GroupsAccepted, Sorting.SetOf, First;
    ghost var all := Flat(shards);
    var cohorts := AbsorbAll(shards, violations);
    var groups := cohorts.groups;
    TableKeys(groups, all);
    if required.Some? && groups.Keys != Sorting.SetOf(required.value) {
      violations.Append(GroupInventoryDrift);
    }
    var order: seq<Bytes>;
    if required.Some? && required.value != [] {
      order := required.value;
    } else {
      order := Sorting.SortSet(groups.Keys);
      Sorting.SortedUnique(groups.Keys, order, Sorting.Sorted(groups.Keys));
    }
    ghost var before := violations.items;
    results := [];
    NoOutcomes(all, order, t);
    for n := 0 to |order|
      invariant before <= violations.items
      invariant violations.items == before <==> GroupsAccepted(all, Sorting.SetOf(order[..n]), t)
      invariant results == Outcomes(all, order[..n])
    {
      var name := order[n];
      OutcomeStep(groups, all, order, n, t);
      if name in groups {
        var outcome := FinishGroup(groups[name], t, violations);
        results := results + outcome;
      }
    }
    assert order[..|order|] == order;
    if !required.Some? || Names(all) == Sorting.SetOf(required.value) {
      OrderCovers(all, required, order);
    }
  }

  lemma TableKeys(groups: map<Bytes, Combined>, all: seq<RawGroup>)
    requires Tabulates(groups, all)
    ensures groups.Keys == Names(all)
  {}

  lemma NoOutcomes(all: seq<RawGroup>, order: seq<Bytes>, t: Thresholds)
    ensures Outcomes(all, order[..0]) == [] && GroupsAccepted(all, Sorting.SetOf(order[..0]), t)
  {}

  /** One name of the order: its table entry is what the records say, and it can be summarised. */
  lemma OutcomeStep(groups: map<Bytes, Combined>, all: seq<RawGroup>, order: seq<Bytes>, n: nat, t: Thresholds)
    requires Tabulates(groups, all) && AllSampled(all) && n < |order|
    ensures var name := order[n];
      && (name in groups ==>
            && (groups[name].representatives != [] ==> groups[name].raw != [])
            && Outcomes(all, order[..n + 1]) == Outcomes(all, order[..n]) + Outcome(groups[name])
            && (GroupsAccepted(all, Sorting.SetOf(order[..n + 1]), t) <==>
                  GroupsAccepted(all, Sorting.SetOf(order[..n]), t) && GroupAccepted(groups[name], t)))
      && (name !in groups ==>
            && Outcomes(all, order[..n + 1]) == Outcomes(all, order[..n])
            && (GroupsAccepted(all, Sorting.SetOf(order[..n + 1]), t) <==> GroupsAccepted(all, Sorting.SetOf(order[..n]), t)))
  {
    hide GroupAccepted, Outcome, Collected, First, AllSampled, Known;
    var name := order[n];
    assert order[..n + 1][..n] == order[..n];
    assert order[..n + 1] == order[..n] + [name];
    assert Sorting.SetOf(order[..n + 1]) == Sorting.SetOf(order[..n]) + {name};
    KnownIsListed(groups, all, name);
    if name in groups {
      RawNotEmpty(all, name);
    }
  }

  lemma KnownIsListed(groups: map<Bytes, Combined>, all: seq<RawGroup>, name: Bytes)
    requires Tabulates(groups, all)
    ensures Known(all, name) <==> name in groups
  {
    hide Collected;
    if name in groups {
      NamedKeys(all);
    } else if Known(all, name) {
      KnownName(groups, all, name);
    }
  }

  lemma {:induction false} SampledProcesses(all: seq<RawGroup>, name: Bytes)
    requires AllSampled(all)
    ensures Sampled(ProcessesOf(all, name))
  {
    if all != [] {
      SampledProcesses(all[..|all| - 1], name);
      assert Sampled(all[|all| - 1].processes);
    }
  }

  lemma RawNotEmpty(all: seq<RawGroup>, name: Bytes)
    requires AllSampled(all) && First(all, name) < |all|
    ensures Collected(all, name).representatives != [] ==> Collected(all, name).raw != []
  {
    hide First, AllSampled, ProcessesOf;
    SampledProcesses(all, name);
    var ps := ProcessesOf(all, name);
    if ps != [] {
      assert ps[|ps| - 1].samples != [];
    }
  }

  lemma OrderCovers(all: seq<RawGroup>, required: Option<seq<Bytes>>, order: seq<Bytes>)
    requires order == Order(all, required)
    requires required.Some? ==> Names(all) == Sorting.SetOf(required.value)
    ensures Sorting.SetOf(order) == Names(all)
  {
    hide Names;
    if required.Some? && required.value == [] {
      assert Sorting.SetOf(required.value) == {};
    }
  }

  // ----- sharding does not matter

  lemma {:induction false} RawMultiset(a: seq<Process>, b: seq<Process>)
    requires multiset(a) == multiset(b)
    ensures multiset(Raw(a)) == multiset(Raw(b))
    ensures multiset(Representatives(a)) == multiset(Representatives(b))
    decreases |a|
  {
    hide Raw, Representatives;
    assert |a| == |multiset(a)| == |multiset(b)| == |b|;
    if a != [] {
      var init, p := a[..|a| - 1], a[|a| - 1];
      assert a == init + [p] + [] && init + [] == init;
      assert p in multiset(b);
      var k :| 0 <= k < |b| && b[k] == p;
      var left, right := b[..k], b[k + 1..];
      assert b == left + [p] + right;
      WithoutOne(init, p, left, right);
      RawMultiset(init, left + right);
      PartsOfRaw(init, p, []);
      PartsOfRaw(left, p, right);
    } else {
      assert b == [];
    }
  }

  lemma WithoutOne(init: seq<Process>, p: Process, left: seq<Process>, right: seq<Process>)
    requires multiset(init + [p] + []) == multiset(left + [p] + right)
    ensures multiset(init) == multiset(left + right)
  {
    assert multiset(init) == multiset(init + [p] + []) - multiset{p};
    assert multiset(left + right) == multiset(left + [p] + right) - multiset{p};
  }

  /** Where one process stands in the list does not matter. */
  lemma PartsOfRaw(left: seq<Process>, p: Process, right: seq<Process>)
    ensures multiset(Raw(left + [p] + right)) == multiset(Raw(left + right)) + multiset(p.samples)
    ensures multiset(Representatives(left + [p] + right)) == multiset(Representatives(left + right)) + multiset{p.representative}
  {
    RawConcat(left + [p], right);
    RawConcat(left, [p]);
    RawConcat(left, right);
    assert Raw([p]) == p.samples by { assert [p][..0] == []; }
    RepresentativesConcat(left + [p], right);
    RepresentativesConcat(left, [p]);
    RepresentativesConcat(left, right);
    assert Representatives([p]) == [p.representative];
  }

  /** However a group's processes are split over shards and ordered, its statistics, its
      process count and its process identities are the same. */
  lemma ShardingIrrelevant(a: seq<RawGroup>, b: seq<RawGroup>, name: Bytes)
    requires First(a, name) < |a| && First(b, name) < |b|
    requires multiset(ProcessesOf(a, name)) == multiset(ProcessesOf(b, name))
    ensures var x, y := Collected(a, name), Collected(b, name);
      && RecomputedStatistics(x.representatives, x.raw) == RecomputedStatistics(y.representatives, y.raw)
      && |x.representatives| == |y.representatives|
      && x.ids == y.ids
  {
    hide First, ProcessesOf, ReportedOf, RecordsOf, Representatives, Raw, RecomputedStatistics;
    var ps, qs := ProcessesOf(a, name), ProcessesOf(b, name);
    RawMultiset(ps, qs);
    StatisticsIgnoreOrder(Representatives(ps), Representatives(qs), Raw(ps), Raw(qs));
    assert |ps| == |multiset(ps)| == |qs|;
    SameIds(ps, qs);
    SameIds(qs, ps);
  }

  lemma SameIds(ps: seq<Process>, qs: seq<Process>)
    requires multiset(ps) == multiset(qs)
    ensures Ids(ps) <= Ids(qs)
  {
    forall i | 0 <= i < |ps| ensures ps[i].id in Ids(qs) {
      assert ps[i] in multiset(qs);
    }
  }

  /** So a resharding with the same cell that reports no statistics of its own, or the same
      ones, gets the same verdict. */
  lemma VerdictIgnoresSharding(a: seq<RawGroup>, b: seq<RawGroup>, name: Bytes, t: Thresholds)
    requires First(a, name) < |a| && First(b, name) < |b|
    requires multiset(ProcessesOf(a, name)) == multiset(ProcessesOf(b, name))
    requires a[First(a, name)].cell == b[First(b, name)].cell && a[First(a, name)].cell.supported
    requires forall s :: s in ReportedOf(b, name) ==> s in ReportedOf(a, name)
    ensures GroupAccepted(Collected(a, name), t) ==> GroupAccepted(Collected(b, name), t)
  {
    hide First, ProcessesOf, ReportedOf, RecordsOf, Representatives, Raw, RecomputedStatistics, Within, Ids;
    ShardingIrrelevant(a, b, name);
  }

  /** What the gates say of the thirty processes: at least 15 representatives within the median
      gate, at least 29 within the 95th-percentile gate, and every raw sample within the maxima. */
  lemma GateMeaning(reps: seq<real>, raw: seq<real>, t: Thresholds)
    requires |reps| == 30 && raw != []
    ensures RecomputedStatistics(reps, raw).Ok?
    ensures Within(RecomputedStatistics(reps, raw).value, t) <==>
      && (t.p50Max.Some? ==> CountAtMost(reps, t.p50Max.value) >= 15)
      && (t.p95Max.Some? ==> CountAtMost(reps, t.p95Max.value) >= 29)
      && (t.max.Some? ==> forall x :: x in raw ==> x <= t.max.value)
      && (t.maxExclusive.Some? ==> forall x :: x in raw ==> x < t.maxExclusive.value)
  {
    hide NearestRank, Max, CountAtMost, Sort;
    StatisticsDefined(reps, raw);
    assert CeilDiv(30 * 50, 100) == 15 && CeilDiv(30 * 95, 100) == 29;
    if t.p50Max.Some? { NearestRankGate(reps, 50, 100, t.p50Max.value); }
    if t.p95Max.Some? { NearestRankGate(reps, 95, 100, t.p95Max.value); }
  }
}
