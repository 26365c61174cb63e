/** `derive_owned_projection_mappings`: which leaves of the historical tree are
    owned by the new repository, and under which path each one goes there. */
module OwnedProjection {
  import opened ByteStrings
  import opened GitPaths
  import opened TreeMeaning
  import opened Sorting
  import opened Violations

  const BOOTSTRAP_PREFIX: Bytes := "release/rterm-bootstrap"

  datatype Rule = Rule(source: Bytes, filtered: Bytes)
  datatype Mapping = Mapping(source: Bytes, filtered: Bytes, leaf: Leaf)

  /** The frozen contract: owned roots in order, and the bootstrap templates. */
  datatype Contract = Contract(required: seq<Rule>, future: seq<Rule>, templates: seq<Rule>)

  function RulesOf(c: Contract): seq<Rule> {
    c.required + c.future
  }

  /** The templates as a table from source path to target path; a later line wins. */
  function TemplateTable(templates: seq<Rule>): map<Bytes, Bytes> {
    if templates == [] then map[]
    else
      var last := templates[|templates| - 1];
      TemplateTable(templates[..|templates| - 1])[last.source := last.filtered]
  }

  /** The path is the root itself or lies below it. */
  predicate Owns(root: Bytes, path: Bytes) {
    path == root || root + ['/'] <= path
  }

  predicate IsBootstrap(r: Rule) {
    r.source == BOOTSTRAP_PREFIX
  }

  ghost function OwnedPaths(leaves: map<Bytes, Leaf>, r: Rule): set<Bytes> {
    set p | p in leaves && Owns(r.source, p)
  }

  /** Where a leaf owned by rule `r` goes. */
  function Target(table: map<Bytes, Bytes>, r: Rule, path: Bytes): Bytes
    requires IsBootstrap(r) ==> path in table
    requires Owns(r.source, path)
  {
    if IsBootstrap(r) then table[path] else r.filtered + path[|r.source|..]
  }

  ghost predicate RuleHolds(leaves: map<Bytes, Leaf>, table: map<Bytes, Bytes>, r: Rule) {
    && SafeGitPath(r.source) && SafeGitPath(r.filtered)
    && OwnedPaths(leaves, r) != {}
    && (IsBootstrap(r) ==> OwnedPaths(leaves, r) == table.Keys)
  }

  /** A leaf with its target, and whether a bootstrap rule sent it there. */
  datatype Candidate = Candidate(m: Mapping, bootstrap: bool)

  ghost function CandidateFor(leaves: map<Bytes, Leaf>, table: map<Bytes, Bytes>, r: Rule, path: Bytes): Candidate
    requires path in leaves && Owns(r.source, path) && (IsBootstrap(r) ==> path in table)
  {
    Candidate(Mapping(path, Target(table, r, path), leaves[path]), IsBootstrap(r))
  }

  /** The candidates of one rule, in path order. */
  ghost function RuleCandidates(leaves: map<Bytes, Leaf>, table: map<Bytes, Bytes>, r: Rule): seq<Candidate>
    requires RuleHolds(leaves, table, r)
  {
    var paths := Sorted(OwnedPaths(leaves, r));
    assert forall i :: 0 <= i < |paths| ==> paths[i] in SetOf(paths);
    seq(|paths|, i requires 0 <= i < |paths| => CandidateFor(leaves, table, r, paths[i]))
  }

  ghost predicate AllHold(leaves: map<Bytes, Leaf>, table: map<Bytes, Bytes>, rules: seq<Rule>) {
    forall i :: 0 <= i < |rules| ==> RuleHolds(leaves, table, rules[i])
  }

  ghost function Candidates(leaves: map<Bytes, Leaf>, table: map<Bytes, Bytes>, rules: seq<Rule>): seq<Candidate>
    requires AllHold(leaves, table, rules)
  {
    if rules == [] then []
    else Candidates(leaves, table, rules[..|rules| - 1]) + RuleCandidates(leaves, table, rules[|rules| - 1])
  }

  /** No leaf is claimed twice, and only a template may reuse an earlier target. */
  ghost predicate Proper(cs: seq<Candidate>) {
    forall i, j :: 0 <= i < j < |cs| ==>
      cs[i].m.source != cs[j].m.source && (cs[j].bootstrap || cs[i].m.filtered != cs[j].m.filtered)
  }

  ghost predicate Derivable(leaves: map<Bytes, Leaf>, c: Contract) {
    var table, rules := TemplateTable(c.templates), RulesOf(c);
    AllHold(leaves, table, rules) && Proper(Candidates(leaves, table, rules))
  }

  function MappingsOf(cs: seq<Candidate>): (ms: seq<Mapping>)
    ensures |ms| == |cs|
  {
    seq(|cs|, i requires 0 <= i < |cs| => cs[i].m)
  }

  // ----- the derivation

  ghost predicate Collecting(cs: seq<Candidate>, mappings: seq<Mapping>, sources: set<Bytes>, targets: set<Bytes>) {
    && Proper(cs) && mappings == MappingsOf(cs)
    && sources == (set m | m in mappings :: m.source)
    && targets == (set m | m in mappings :: m.filtered)
  }

  lemma CollectNone()
    ensures Collecting([], [], {}, {})
  {
  }

  lemma CollectOne(cs: seq<Candidate>, mappings: seq<Mapping>, sources: set<Bytes>, targets: set<Bytes>, c: Candidate)
    requires Collecting(cs, mappings, sources, targets)
    ensures Proper(cs + [c]) <==> c.m.source !in sources && (c.bootstrap || c.m.filtered !in targets)
    ensures Proper(cs + [c]) ==>
      Collecting(cs + [c], mappings + [c.m], sources + {c.m.source}, targets + {c.m.filtered})
  {
    var all := cs + [c];
    assert forall i :: 0 <= i < |cs| ==> all[i] == cs[i] && mappings[i] == cs[i].m && mappings[i] in mappings;
    assert all[|cs|] == c;
    if !(c.m.source !in sources && (c.bootstrap || c.m.filtered !in targets)) {
      var m :| m in mappings && (m.source == c.m.source || (!c.bootstrap && m.filtered == c.m.filtered));
      var i :| 0 <= i < |mappings| && mappings[i] == m;
      assert !(all[i].m.source != all[|cs|].m.source && (all[|cs|].bootstrap || all[i].m.filtered != all[|cs|].m.filtered));
    } else {
      assert Proper(all) by {
        forall i, j | 0 <= i < j < |all|
          ensures all[i].m.source != all[j].m.source && (all[j].bootstrap || all[i].m.filtered != all[j].m.filtered)
        {
          if j == |cs| {
            assert mappings[i].source in sources && mappings[i].filtered in targets;
          }
        }
      }
      assert MappingsOf(all) == mappings + [c.m];
    }
  }

  lemma ProperPrefix(a: seq<Candidate>, b: seq<Candidate>)
    requires Proper(a + b)
    ensures Proper(a)
  {
    assert forall i :: 0 <= i < |a| ==> (a + b)[i] == a[i];
  }

  /** The loop over the matches of one rule. */
  method CollectRule(leaves: map<Bytes, Leaf>, table: map<Bytes, Bytes>, r: Rule, paths: seq<Bytes>,
                     mappings0: seq<Mapping>, sources0: set<Bytes>, targets0: set<Bytes>, violations: ViolationList,
                     ghost cs: seq<Candidate>, ghost clean: bool)
      returns (mappings: seq<Mapping>, sources: set<Bytes>, targets: set<Bytes>)
    requires forall i :: 0 <= i < |paths| ==>
      paths[i] in leaves && Owns(r.source, paths[i]) && (IsBootstrap(r) ==> paths[i] in table)
    requires clean ==> Collecting(cs, mappings0, sources0, targets0)
    modifies violations
    ensures old(violations.items) <= violations.items
    ensures clean ==>
      var more := seq(|paths|, i requires 0 <= i < |paths| => CandidateFor(leaves, table, r, paths[i]));
      && (violations.items == old(violations.items) <==> Proper(cs + more))
      && (violations.items == old(violations.items) ==> Collecting(cs + more, mappings, sources, targets))
  {
    hide Owns, Proper, Collecting;
    mappings, sources, targets := mappings0, sources0, targets0;
    ghost var more := seq(|paths|, i requires 0 <= i < |paths| => CandidateFor(leaves, table, r, paths[i]));
    assert cs + more[..0] == cs && more[..|paths|] == more;
    if clean { CollectingIsProper(cs, mappings, sources, targets); }
    for k := 0 to |paths|
      invariant old(violations.items) <= violations.items
      invariant clean && violations.items == old(violations.items) ==> Collecting(cs + more[..k], mappings, sources, targets)
      invariant clean ==> (violations.items == old(violations.items) <==> Proper(cs + more[..k]))
    {
      var path := paths[k];
      var target := Target(table, r, path);
      ghost var c := CandidateFor(leaves, table, r, path);
      assert cs + more[..k + 1] == cs + more[..k] + [c];
      if clean {
        if violations.items == old(violations.items) {
          CollectOne(cs + more[..k], mappings, sources, targets, c);
        } else if Proper(cs + more[..k] + [c]) {
          ProperPrefix(cs + more[..k], [c]);
        }
      }
      if path in sources || (target in targets && !IsBootstrap(r)) {
        violations.Append(OverlappingRoots);
        continue;
      }
      sources, targets := sources + {path}, targets + {target};
      mappings := mappings + [Mapping(path, target, leaves[path])];
    }
  }

  lemma CollectingIsProper(cs: seq<Candidate>, mappings: seq<Mapping>, sources: set<Bytes>, targets: set<Bytes>)
    requires Collecting(cs, mappings, sources, targets)
    ensures Proper(cs)
  {
  }

  method MatchRule(leaves: map<Bytes, Leaf>, table: map<Bytes, Bytes>, r: Rule, violations: ViolationList)
      returns (found: bool, paths: seq<Bytes>)
    modifies violations
    ensures old(violations.items) <= violations.items
    ensures violations.items == old(violations.items) <==> RuleHolds(leaves, table, r)
    ensures violations.items == old(violations.items) ==> found && SortedList(OwnedPaths(leaves, r), paths)
    ensures found ==> forall i :: 0 <= i < |paths| ==>
      paths[i] in leaves && Owns(r.source, paths[i]) && (IsBootstrap(r) ==> paths[i] in table)
  {
    hide SafeGitPath, Owns, StrictlyAscending;
    if !SafeGitPath(r.source) || !SafeGitPath(r.filtered) {
      violations.Append(UnsafeRule);
      return false, [];
    }
    var observed := set p | p in leaves && Owns(r.source, p);
    assert observed == OwnedPaths(leaves, r);
    if observed == {} {
      violations.Append(MissingOwnedRoot);
      return false, [];
    }
    var matches := observed;
    if IsBootstrap(r) {
      if !(table.Keys <= observed) {
        violations.Append(MissingTemplate);
      }
      if !(observed <= table.Keys) {
        violations.Append(UndeclaredTemplate);
      }
      matches := table.Keys * observed;
    }
    paths := SortSet(matches);
    assert forall i :: 0 <= i < |paths| ==> paths[i] in SetOf(paths);
    found := true;
  }

  lemma RuleCandidatesFrom(leaves: map<Bytes, Leaf>, table: map<Bytes, Bytes>, r: Rule, paths: seq<Bytes>)
    requires RuleHolds(leaves, table, r) && SortedList(OwnedPaths(leaves, r), paths)
    ensures forall i :: 0 <= i < |paths| ==> paths[i] in OwnedPaths(leaves, r)
    ensures RuleCandidates(leaves, table, r) ==
      seq(|paths|, i requires 0 <= i < |paths| => CandidateFor(leaves, table, r, paths[i]))
  {
    hide SafeGitPath, StrictlyAscending, Sorted;
    SortedUnique(OwnedPaths(leaves, r), paths, Sorted(OwnedPaths(leaves, r)));
    assert forall i :: 0 <= i < |paths| ==> paths[i] in SetOf(paths);
  }

  lemma CandidatesGrow(leaves: map<Bytes, Leaf>, table: map<Bytes, Bytes>, rules: seq<Rule>, i: nat)
    requires i < |rules|
    ensures AllHold(leaves, table, []) && Candidates(leaves, table, []) == []
    ensures AllHold(leaves, table, rules[..i + 1]) <==> AllHold(leaves, table, rules[..i]) && RuleHolds(leaves, table, rules[i])
    ensures AllHold(leaves, table, rules[..i + 1]) ==>
      Candidates(leaves, table, rules[..i + 1]) ==
      Candidates(leaves, table, rules[..i]) + RuleCandidates(leaves, table, rules[i])
    ensures AllHold(leaves, table, rules[..i + 1]) && Proper(Candidates(leaves, table, rules[..i + 1])) ==>
      Proper(Candidates(leaves, table, rules[..i]))
  {
    hide RuleHolds, RuleCandidates, Proper;
    var upto := rules[..i + 1];
    assert upto[..i] == rules[..i] && upto[i] == rules[i];
    assert forall k :: 0 <= k < i ==> rules[..i][k] == upto[k];
    if AllHold(leaves, table, upto) && Proper(Candidates(leaves, table, upto)) {
      ProperPrefix(Candidates(leaves, table, rules[..i]), RuleCandidates(leaves, table, rules[i]));
    }
  }

  ghost predicate DerivableFrom(leaves: map<Bytes, Leaf>, table: map<Bytes, Bytes>, rules: seq<Rule>) {
    AllHold(leaves, table, rules) && Proper(Candidates(leaves, table, rules))
  }

  /** One rule: its matches, then their targets. */
  method DeriveRule(leaves: map<Bytes, Leaf>, table: map<Bytes, Bytes>, r: Rule, mappings0: seq<Mapping>, sources0: set<Bytes>,
                    targets0: set<Bytes>, violations: ViolationList, ghost cs: seq<Candidate>, ghost clean: bool)
      returns (mappings: seq<Mapping>, sources: set<Bytes>, targets: set<Bytes>)
    requires clean ==> Collecting(cs, mappings0, sources0, targets0)
    modifies violations
    ensures old(violations.items) <= violations.items
    ensures clean ==>
      (violations.items == old(violations.items) <==>
        RuleHolds(leaves, table, r) && Proper(cs + RuleCandidates(leaves, table, r)))
    ensures clean && violations.items == old(violations.items) ==>
      Collecting(cs + RuleCandidates(leaves, table, r), mappings, sources, targets)
  {
    hide RuleHolds, RuleCandidates, Proper, Collecting, Owns, SortedList, OwnedPaths, IsBootstrap, CandidateFor;
    var found, paths := MatchRule(leaves, table, r, violations);
    if !found {
      return mappings0, sources0, targets0;
    }
    if violations.items == old(violations.items) {
      RuleCandidatesFrom(leaves, table, r, paths);
    }
    mappings, sources, targets :=
      CollectRule(leaves, table, r, paths, mappings0, sources0, targets0, violations, cs, clean);
  }

  lemma DerivableStep(leaves: map<Bytes, Leaf>, table: map<Bytes, Bytes>, rules: seq<Rule>, i: nat)
    requires i < |rules|
    ensures DerivableFrom(leaves, table, []) && Candidates(leaves, table, []) == []
    ensures DerivableFrom(leaves, table, rules[..i + 1]) <==>
      && DerivableFrom(leaves, table, rules[..i]) && RuleHolds(leaves, table, rules[i])
      && Proper(Candidates(leaves, table, rules[..i]) + RuleCandidates(leaves, table, rules[i]))
    ensures DerivableFrom(leaves, table, rules[..i + 1]) ==>
      && AllHold(leaves, table, rules[..i]) && RuleHolds(leaves, table, rules[i])
      && Candidates(leaves, table, rules[..i + 1]) ==
         Candidates(leaves, table, rules[..i]) + RuleCandidates(leaves, table, rules[i])
  {
    hide RuleHolds, RuleCandidates, AllHold, Candidates, Proper;
    CandidatesGrow(leaves, table, rules, i);
    NothingProper();
  }

  lemma NothingProper()
    ensures Proper([])
  {
  }

  /** `derive_owned_projection_mappings`, up to the final sort. */
  method Derive(leaves: map<Bytes, Leaf>, c: Contract, violations: ViolationList) returns (mappings: seq<Mapping>)
    modifies violations
    ensures old(violations.items) <= violations.items
    ensures violations.items == old(violations.items) <==> Derivable(leaves, c)
    ensures violations.items == old(violations.items) ==>
      mappings == MappingsOf(Candidates(leaves, TemplateTable(c.templates), RulesOf(c)))
  {
    hide *;
    var table, rules := TemplateTable(c.templates), RulesOf(c);
    DerivableFacts(leaves, c);
    var sources: set<Bytes>, targets: set<Bytes> := {}, {};
    mappings := [];
    CollectNone();
    DerivableNone(leaves, table);
    assert rules[..0] == [];
    for i := 0 to |rules|
      invariant old(violations.items) <= violations.items
      invariant violations.items == old(violations.items) <==> DerivableFrom(leaves, table, rules[..i])
      invariant violations.items == old(violations.items) ==>
        AllHold(leaves, table, rules[..i]) && Collecting(Candidates(leaves, table, rules[..i]), mappings, sources, targets)
    {
      DerivableStep(leaves, table, rules, i);
      ghost var clean := violations.items == old(violations.items);
      ghost var cs := if clean then Candidates(leaves, table, rules[..i]) else [];
      mappings, sources, targets :=
        DeriveRule(leaves, table, rules[i], mappings, sources, targets, violations, cs, clean);
      DerivableHolds(leaves, table, rules[..i + 1]);
    }
    assert rules[..|rules|] == rules;
    if violations.items == old(violations.items) {
      CollectingMappings(Candidates(leaves, table, rules), mappings, sources, targets);
    }
  }

  lemma DerivableHolds(leaves: map<Bytes, Leaf>, table: map<Bytes, Bytes>, rules: seq<Rule>)
    ensures DerivableFrom(leaves, table, rules) ==> AllHold(leaves, table, rules)
  {
  }

  lemma DerivableNone(leaves: map<Bytes, Leaf>, table: map<Bytes, Bytes>)
    ensures DerivableFrom(leaves, table, []) && AllHold(leaves, table, []) && Candidates(leaves, table, []) == []
  {
  }

  lemma DerivableFacts(leaves: map<Bytes, Leaf>, c: Contract)
    ensures Derivable(leaves, c) <==> DerivableFrom(leaves, TemplateTable(c.templates), RulesOf(c))
  {
  }

  lemma CollectingMappings(cs: seq<Candidate>, mappings: seq<Mapping>, sources: set<Bytes>, targets: set<Bytes>)
    requires Collecting(cs, mappings, sources, targets)
    ensures mappings == MappingsOf(cs)
  {
  }

  // ----- what was derived

  /** Some rule owns the leaf and sends it there. */
  ghost predicate Owned(leaves: map<Bytes, Leaf>, c: Contract, m: Mapping) {
    var table := TemplateTable(c.templates);
    exists r :: r in RulesOf(c) && OwnedBy(leaves, table, r, m)
  }

  ghost predicate OwnedBy(leaves: map<Bytes, Leaf>, table: map<Bytes, Bytes>, r: Rule, m: Mapping) {
    && m.source in leaves && Owns(r.source, m.source) && (IsBootstrap(r) ==> m.source in table)
    && m == Mapping(m.source, Target(table, r, m.source), leaves[m.source])
  }

  lemma RuleMembers(leaves: map<Bytes, Leaf>, table: map<Bytes, Bytes>, r: Rule, m: Mapping)
    requires RuleHolds(leaves, table, r)
    ensures m in MappingsOf(RuleCandidates(leaves, table, r)) <==> OwnedBy(leaves, table, r, m)
  {
    hide SafeGitPath, StrictlyAscending, Sorted, Owns, Target;
    var paths, cs := Sorted(OwnedPaths(leaves, r)), RuleCandidates(leaves, table, r);
    if m in MappingsOf(cs) {
      var i :| 0 <= i < |cs| && cs[i].m == m;
      assert paths[i] in SetOf(paths);
    }
    if OwnedBy(leaves, table, r, m) {
      assert m.source in SetOf(paths);
      var i :| 0 <= i < |paths| && paths[i] == m.source;
      assert MappingsOf(cs)[i] == m;
    }
  }

  lemma {:induction false} CandidateMembers(leaves: map<Bytes, Leaf>, table: map<Bytes, Bytes>, rules: seq<Rule>, m: Mapping)
    requires AllHold(leaves, table, rules)
    ensures m in MappingsOf(Candidates(leaves, table, rules)) <==> exists r :: r in rules && OwnedBy(leaves, table, r, m)
  {
    hide RuleHolds, OwnedBy, RuleCandidates;
    if rules != [] {
      var init, last := rules[..|rules| - 1], rules[|rules| - 1];
      CandidateMembers(leaves, table, init, m);
      RuleMembers(leaves, table, last, m);
      var a, b := Candidates(leaves, table, init), RuleCandidates(leaves, table, last);
      assert MappingsOf(a + b) == MappingsOf(a) + MappingsOf(b);
      assert forall r :: r in rules <==> r in init || r == last;
    }
  }

  /** The derived mappings are exactly the owned leaves with their targets, each leaf once. */
  lemma DerivedIsOwned(leaves: map<Bytes, Leaf>, c: Contract, mappings: seq<Mapping>)
    requires Derivable(leaves, c)
    requires mappings == MappingsOf(Candidates(leaves, TemplateTable(c.templates), RulesOf(c)))
    ensures forall m :: m in mappings <==> Owned(leaves, c, m)
    ensures forall i, j :: 0 <= i < j < |mappings| ==> mappings[i].source != mappings[j].source
  {
    hide RuleHolds, OwnedBy, Candidates, TemplateTable;
    var table, rules := TemplateTable(c.templates), RulesOf(c);
    forall m ensures m in mappings <==> Owned(leaves, c, m) {
      CandidateMembers(leaves, table, rules, m);
    }
    var cs := Candidates(leaves, table, rules);
    assert forall i :: 0 <= i < |cs| ==> mappings[i] == cs[i].m;
  }
}
