/** The chain of evidence manifests: each certified state rests on the one
    before it, down to the first. */
module ManifestChain {
  import opened ByteStrings
  import opened Results
  import opened Violations

  // ----- states, by their index in the frozen order

  const ATTRIBUTION_READY := 1
  const CROSS_PLATFORM_GO := 3
  const EXTRACTION_READY := 4
  const DUAL_SOURCE_VERIFIED := 5
  const SPLIT_COMPLETE := 6

  type Ref = Option<Bytes>

  datatype RSshEpoch = RSshEpoch(r0: Ref, r2: Ref, r3Deletion: Ref, r3: Ref)
  datatype RTermEpoch = RTermEpoch(filtered: Ref, r1: Ref)

  /** A manifest entry: its path, and everything else it says. */
  datatype Artifact = Artifact(id: Bytes, content: Bytes, path: Bytes)

  datatype Prior = Prior(path: Bytes, sha256: Bytes, state: int, commit: Bytes)

  datatype Manifest = Manifest(requested: int, certified: int, commit: Bytes, rssh: Option<RSshEpoch>,
                               rterm: Option<RTermEpoch>, entries: seq<Artifact>, prior: Option<Prior>)

  /** What the validator reads from disk and from Git, and the findings of the
      checks that are not modelled. */
  datatype World = World(
    files: map<Bytes, Manifest>,
    within: Bytes -> bool,
    locate: (Bytes, Bytes) -> Option<Bytes>,
    place: (Bytes, Bytes) -> Bytes,
    hashMatches: (Bytes, Bytes) -> bool,
    available: Bytes -> bool,
    isAncestor: (Bytes, Bytes) -> bool,
    lkg: Bytes,
    otherFindings: Manifest -> seq<Violation>)

  predicate Named(r: Ref) {
    r.Some? && FullSha(r.value)
  }

  // ----- validate_epoch_shape

  /** A field is named exactly when the state certifies it. */
  predicate FieldFits(r: Ref, certified: bool) {
    if certified then Named(r) else r.None?
  }

  predicate RSshFits(e: Option<RSshEpoch>, state: int) {
    if state < EXTRACTION_READY then e.None?
    else
      && e.Some? && FieldFits(e.value.r0, true)
      && FieldFits(e.value.r2, state >= DUAL_SOURCE_VERIFIED)
      && FieldFits(e.value.r3Deletion, state >= SPLIT_COMPLETE) && FieldFits(e.value.r3, state >= SPLIT_COMPLETE)
  }

  predicate RTermFits(e: Option<RTermEpoch>, state: int) {
    if state < EXTRACTION_READY then e.None?
    else e.Some? && FieldFits(e.value.filtered, true) && FieldFits(e.value.r1, true)
  }

  predicate ShapeFits(m: Manifest, state: int) {
    RSshFits(m.rssh, state) && RTermFits(m.rterm, state)
  }

  method CheckField(r: Ref, certified: bool, violations: ViolationList)
    modifies violations
    ensures old(violations.items) <= violations.items
    ensures violations.items == old(violations.items) <==> FieldFits(r, certified)
  {
    if certified {
      if !Named(r) {
        violations.Append(InvalidEpochField);
      }
    } else if r.Some? {
      violations.Append(UncertifiedField);
    }
  }

  method CheckShape(m: Manifest, state: int, violations: ViolationList)
    modifies violations
    ensures old(violations.items) <= violations.items
    ensures violations.items == old(violations.items) <==> ShapeFits(m, state)
  {
    hide FieldFits;
    if state < EXTRACTION_READY {
      if m.rssh.Some? || m.rterm.Some? {
        violations.Append(PrematureEpoch);
      }
      return;
    }
    if m.rssh.None? {
      violations.Append(InvalidEpochField);
    } else {
      CheckField(m.rssh.value.r0, true, violations);
      CheckField(m.rssh.value.r2, state >= DUAL_SOURCE_VERIFIED, violations);
      CheckField(m.rssh.value.r3Deletion, state >= SPLIT_COMPLETE, violations);
      CheckField(m.rssh.value.r3, state >= SPLIT_COMPLETE, violations);
    }
    if m.rterm.None? {
      violations.Append(InvalidEpochField);
    } else {
      CheckField(m.rterm.value.filtered, true, violations);
      CheckField(m.rterm.value.r1, true, violations);
    }
  }

  // ----- validate_epoch_git_bindings

  predicate RefAvailable(w: World, r: Ref) {
    Named(r) ==> w.available(r.value)
  }

  predicate Follows(w: World, a: Ref, b: Ref) {
    Named(a) && Named(b) ==> w.isAncestor(a.value, b.value)
  }

  /** The local refs the state certifies exist, `r0` lies strictly below the
      certified commit, and the later refs are where they must be. */
  predicate RSshBinds(w: World, e: RSshEpoch, commit: Bytes, state: int) {
    && RefAvailable(w, e.r0)
    && (state >= DUAL_SOURCE_VERIFIED ==> RefAvailable(w, e.r2))
    && (state >= SPLIT_COMPLETE ==> RefAvailable(w, e.r3Deletion) && RefAvailable(w, e.r3))
    && (Named(e.r0) && FullSha(commit) ==> e.r0.value != commit && w.isAncestor(e.r0.value, commit))
    && (state == DUAL_SOURCE_VERIFIED ==> e.r2 == Some(commit))
    && (state == SPLIT_COMPLETE ==>
          e.r3 == Some(commit) && Follows(w, e.r2, e.r3Deletion) && Follows(w, e.r3Deletion, e.r3))
  }

  /** The external refs are external. */
  predicate RTermBinds(w: World, e: RTermEpoch) {
    && e.r1 != Some(w.lkg)
    && (Named(e.filtered) ==> !w.available(e.filtered.value))
    && (Named(e.r1) ==> !w.available(e.r1.value))
  }

  predicate GitBinds(w: World, m: Manifest, state: int) {
    state >= EXTRACTION_READY && m.rssh.Some? ==>
      && RSshBinds(w, m.rssh.value, m.commit, state)
      && (m.rterm.Some? ==> RTermBinds(w, m.rterm.value))
  }

  method CheckRSshBindings(w: World, e: RSshEpoch, commit: Bytes, state: int, violations: ViolationList)
    modifies violations
    ensures old(violations.items) <= violations.items
    ensures violations.items == old(violations.items) <==> RSshBinds(w, e, commit, state)
  {
    hide Named, FullSha, Follows, RefAvailable;
    if !RefAvailable(w, e.r0)
       || (state >= DUAL_SOURCE_VERIFIED && !RefAvailable(w, e.r2))
       || (state >= SPLIT_COMPLETE && (!RefAvailable(w, e.r3Deletion) || !RefAvailable(w, e.r3)))
    {
      violations.Append(UnavailableRef);
    }
    NamedHasValue(e.r0);
    if Named(e.r0) && FullSha(commit) && (e.r0.value == commit || !w.isAncestor(e.r0.value, commit)) {
      violations.Append(R0NotStrictAncestor);
    }
    if state == DUAL_SOURCE_VERIFIED && e.r2 != Some(commit) {
      violations.Append(WrongR2);
    }
    if state == SPLIT_COMPLETE {
      CheckDeletion(w, e, commit, violations);
    }
  }

  method CheckDeletion(w: World, e: RSshEpoch, commit: Bytes, violations: ViolationList)
    modifies violations
    ensures old(violations.items) <= violations.items
    ensures violations.items == old(violations.items) <==>
      e.r3 == Some(commit) && Follows(w, e.r2, e.r3Deletion) && Follows(w, e.r3Deletion, e.r3)
  {
    hide Follows;
    if e.r3 != Some(commit) {
      violations.Append(WrongR3);
    }
    if !Follows(w, e.r2, e.r3Deletion) {
      violations.Append(DeletionNotAfterR2);
    }
    if !Follows(w, e.r3Deletion, e.r3) {
      violations.Append(DeletionNotBeforeR3);
    }
  }

  lemma NamedHasValue(r: Ref)
    ensures Named(r) ==> r.Some? && FullSha(r.value)
  {
  }

  method CheckGitBindings(w: World, m: Manifest, state: int, violations: ViolationList)
    modifies violations
    ensures old(violations.items) <= violations.items
    ensures violations.items == old(violations.items) <==> GitBinds(w, m, state)
  {
    hide RSshBinds, Named;
    if state < EXTRACTION_READY || m.rssh.None? {
      return;
    }
    CheckRSshBindings(w, m.rssh.value, m.commit, state, violations);
    if m.rterm.Some? {
      var e := m.rterm.value;
      NamedHasValue(e.filtered);
      NamedHasValue(e.r1);
      if e.r1 == Some(w.lkg) {
        violations.Append(R1IsLkg);
      }
      if (Named(e.filtered) && w.available(e.filtered.value)) || (Named(e.r1) && w.available(e.r1.value)) {
        violations.Append(ForeignRefLocal);
      }
    }
  }

  // ----- validate_epoch_progression

  predicate Keeps(prior: Ref, current: Ref) {
    prior.Some? ==> current == prior
  }

  predicate RSshProgress(prior: Option<RSshEpoch>, current: Option<RSshEpoch>) {
    prior.Some? ==>
      && current.Some?
      && Keeps(prior.value.r0, current.value.r0) && Keeps(prior.value.r2, current.value.r2)
      && Keeps(prior.value.r3Deletion, current.value.r3Deletion) && Keeps(prior.value.r3, current.value.r3)
  }

  predicate RTermProgress(prior: Option<RTermEpoch>, current: Option<RTermEpoch>) {
    prior.Some? ==>
      && current.Some?
      && Keeps(prior.value.filtered, current.value.filtered) && Keeps(prior.value.r1, current.value.r1)
  }

  /** No ref that was named ever changes. */
  predicate Progress(prior: Manifest, current: Manifest) {
    RSshProgress(prior.rssh, current.rssh) && RTermProgress(prior.rterm, current.rterm)
  }

  method CheckProgression(prior: Manifest, current: Manifest, violations: ViolationList)
    modifies violations
    ensures old(violations.items) <= violations.items
    ensures violations.items == old(violations.items) <==> Progress(prior, current)
  {
    if prior.rssh.Some? && current.rssh.None? {
      violations.Append(EpochRemoved);
    } else if !RSshProgress(prior.rssh, current.rssh) {
      violations.Append(EpochChanged);
    }
    if prior.rterm.Some? && current.rterm.None? {
      violations.Append(EpochRemoved);
    } else if !RTermProgress(prior.rterm, current.rterm) {
      violations.Append(EpochChanged);
    }
  }

  // ----- entries

  predicate DistinctIds(entries: seq<Artifact>) {
    forall i, j :: 0 <= i < j < |entries| ==> entries[i].id != entries[j].id
  }

  /** The same artifact, wherever the two manifests stand: `entry_equivalent`. */
  predicate Equivalent(w: World, a: Artifact, aAt: Bytes, b: Artifact, bAt: Bytes) {
    a.id == b.id && a.content == b.content && w.place(aAt, a.path) == w.place(bAt, b.path)
  }

  predicate Retains(w: World, current: Manifest, currentAt: Bytes, prior: Manifest, priorAt: Bytes) {
    forall i :: 0 <= i < |prior.entries| ==> Holds(w, current, currentAt, prior.entries[i], priorAt)
  }

  /** The manifest has an entry equivalent to `b`. */
  predicate Holds(w: World, m: Manifest, at: Bytes, b: Artifact, bAt: Bytes) {
    exists j :: 0 <= j < |m.entries| && Equivalent(w, m.entries[j], at, b, bAt)
  }

  // ----- the whole chain

  /** What one manifest must satisfy on its own. */
  predicate Sound(w: World, m: Manifest, state: int) {
    && m.requested == state && m.certified == state
    && FullSha(m.commit) && w.available(m.commit)
    && ShapeFits(m, state) && GitBinds(w, m, state)
    && DistinctIds(m.entries)
  }

  /** What links a manifest to its predecessor. */
  predicate Linked(w: World, m: Manifest, at: Bytes, prior: Manifest, priorAt: Bytes, state: int) {
    && m.prior.Some? && m.prior.value.state == state - 1
    && w.locate(at, m.prior.value.path) == Some(priorAt) && w.hashMatches(priorAt, m.prior.value.sha256)
    && m.prior.value.commit == prior.commit
    && Progress(prior, m)
    && (if state <= CROSS_PLATFORM_GO then prior.commit == m.commit else w.isAncestor(prior.commit, m.commit))
    && Retains(w, m, at, prior, priorAt)
  }

  /** The manifest at `at` is accepted for `state`, with everything below it. */
  ghost predicate Accepted(w: World, at: Bytes, state: nat, visited: set<Bytes>)
    decreases state
  {
    && state >= ATTRIBUTION_READY
    && at !in visited && w.within(at) && at in w.files
    && var m := w.files[at];
       && Sound(w, m, state) && w.otherFindings(m) == []
       && if state == ATTRIBUTION_READY then m.prior.None?
          else
            && m.prior.Some? && w.locate(at, m.prior.value.path).Some?
            && var priorAt := w.locate(at, m.prior.value.path).value;
               && Accepted(w, priorAt, state - 1, visited + {at})
               && Linked(w, m, at, w.files[priorAt], priorAt, state)
  }

  method CheckSound(w: World, m: Manifest, state: int, violations: ViolationList)
    modifies violations
    ensures old(violations.items) <= violations.items
    ensures violations.items == old(violations.items) <==> Sound(w, m, state)
  {
    hide FullSha, ShapeFits, GitBinds, DistinctIds;
    if m.requested != state || m.certified != state {
      violations.Append(WrongState);
    }
    if !FullSha(m.commit) {
      violations.Append(InvalidCommit);
    } else if !w.available(m.commit) {
      violations.Append(UnavailableCommit);
    }
    CheckShape(m, state, violations);
    CheckGitBindings(w, m, state, violations);
    if !DistinctIds(m.entries) {
      violations.Append(DuplicateArtifact);
    }
  }

  /** The comparisons with a predecessor that could be read. */
  method CheckAgainstPrior(w: World, m: Manifest, at: Bytes, prior: Manifest, priorAt: Bytes, state: int, violations: ViolationList)
    requires m.prior.Some?
    modifies violations
    ensures old(violations.items) <= violations.items
    ensures FullSha(m.commit) && FullSha(prior.commit) ==>
      (violations.items == old(violations.items) <==>
        && m.prior.value.commit == prior.commit && Progress(prior, m)
        && (if state <= CROSS_PLATFORM_GO then prior.commit == m.commit else w.isAncestor(prior.commit, m.commit))
        && Retains(w, m, at, prior, priorAt))
  {
    hide FullSha, Progress, Retains;
    CheckProgression(prior, m, violations);
    if m.prior.value.commit != prior.commit {
      violations.Append(PriorCommitDrift);
    }
    if FullSha(prior.commit) && FullSha(m.commit) {
      if state <= CROSS_PLATFORM_GO {
        if prior.commit != m.commit {
          violations.Append(CandidateChanged);
        }
      } else if !w.isAncestor(prior.commit, m.commit) {
        violations.Append(NotDescended);
      }
    }
    if !Retains(w, m, at, prior, priorAt) {
      violations.Append(ArtifactChanged);
    }
  }

  lemma AcceptedFacts(w: World, at: Bytes, state: nat, visited: set<Bytes>)
    ensures Accepted(w, at, state, visited) ==>
      && state >= ATTRIBUTION_READY && at !in visited && w.within(at) && at in w.files
      && Sound(w, w.files[at], state) && w.otherFindings(w.files[at]) == [] && FullSha(w.files[at].commit)
  {
  }

  lemma AcceptedFirst(w: World, at: Bytes, visited: set<Bytes>)
    requires at in w.files
    ensures Accepted(w, at, ATTRIBUTION_READY, visited) <==>
      && at !in visited && w.within(at) && Sound(w, w.files[at], ATTRIBUTION_READY)
      && w.otherFindings(w.files[at]) == [] && w.files[at].prior.None?
  {
  }

  ghost predicate PriorFits(w: World, m: Manifest, at: Bytes, state: nat, visited: set<Bytes>)
    requires state > ATTRIBUTION_READY
  {
    && m.prior.Some? && m.prior.value.state == state - 1 && w.locate(at, m.prior.value.path).Some?
    && var priorAt := w.locate(at, m.prior.value.path).value;
       && w.hashMatches(priorAt, m.prior.value.sha256)
       && Accepted(w, priorAt, state - 1, visited + {at})
       && m.prior.value.commit == w.files[priorAt].commit && Progress(w.files[priorAt], m)
       && (if state <= CROSS_PLATFORM_GO then w.files[priorAt].commit == m.commit
           else w.isAncestor(w.files[priorAt].commit, m.commit))
       && Retains(w, m, at, w.files[priorAt], priorAt)
  }

  lemma AcceptedLater(w: World, at: Bytes, state: nat, visited: set<Bytes>)
    requires at in w.files && state > ATTRIBUTION_READY
    ensures Accepted(w, at, state, visited) <==>
      && at !in visited && w.within(at) && Sound(w, w.files[at], state)
      && w.otherFindings(w.files[at]) == [] && PriorFits(w, w.files[at], at, state, visited)
  {
    hide Sound, Progress, Retains;
  }

  /** The part of `validate_manifest_recursive` that follows the predecessor. */
  method ValidatePrior(w: World, m: Manifest, at: Bytes, state: nat, visited0: set<Bytes>, violations: ViolationList)
      returns (visited: set<Bytes>)
    requires state > ATTRIBUTION_READY && at in visited0
    modifies violations
    ensures old(violations.items) <= violations.items
    ensures FullSha(m.commit) ==>
      (violations.items == old(violations.items) <==> PriorFits(w, m, at, state, visited0))
    decreases state, 0
  {
    hide FullSha, Progress, Retains, Sound;
    visited := visited0;
    assert visited0 + {at} == visited0;
    if m.prior.None? {
      violations.Append(MissingPrior);
      return;
    }
    var p := m.prior.value;
    if p.state != state - 1 {
      violations.Append(WrongPriorState);
    }
    var found := w.locate(at, p.path);
    if found.None? {
      violations.Append(PriorNotFound);
      return;
    }
    if !w.hashMatches(found.value, p.sha256) {
      violations.Append(PriorHashMismatch);
      return;
    }
    AcceptedFacts(w, found.value, state - 1, visited0);
    var prior;
    prior, visited := Validate(w, found.value, state - 1, visited0, violations);
    if prior.Some? {
      CheckAgainstPrior(w, m, at, prior.value, found.value, state, violations);
    }
  }

  /** `validate_manifest_recursive`: accepts exactly the sound chains, and ends
      because the state index drops at every step. */
  method Validate(w: World, at: Bytes, state: nat, visited0: set<Bytes>, violations: ViolationList)
      returns (manifest: Option<Manifest>, visited: set<Bytes>)
    modifies violations
    ensures old(violations.items) <= violations.items
    ensures violations.items == old(violations.items) <==> Accepted(w, at, state, visited0)
    ensures violations.items == old(violations.items) ==> at in w.files && manifest == Some(w.files[at])
    decreases state, 1
  {
    hide Accepted, Sound, FullSha, PriorFits;
    AcceptedFacts(w, at, state, visited0);
    visited := visited0;
    if at in visited {
      violations.Append(ManifestCycle);
      return None, visited;
    }
    if !w.within(at) {
      violations.Append(ManifestOutside);
      return None, visited;
    }
    visited := visited + {at};
    if at !in w.files {
      violations.Append(UnreadableManifest);
      return None, visited;
    }
    var m := w.files[at];
    manifest := Some(m);
    CheckSound(w, m, state, violations);
    if state == ATTRIBUTION_READY {
      AcceptedFirst(w, at, visited0);
      if m.prior.Some? {
        violations.Append(UnexpectedPrior);
      }
    } else if state > ATTRIBUTION_READY {
      AcceptedLater(w, at, state, visited0);
      PriorFitsVisited(w, m, at, state, visited0);
      SoundCommit(w, m, state);
      visited := ValidatePrior(w, m, at, state, visited, violations);
    } else {
      violations.Append(InvalidState);
    }
    violations.Extend(w.otherFindings(m));
  }

  lemma PriorFitsVisited(w: World, m: Manifest, at: Bytes, state: nat, visited: set<Bytes>)
    requires state > ATTRIBUTION_READY
    ensures PriorFits(w, m, at, state, visited) <==> PriorFits(w, m, at, state, visited + {at})
  {
    hide Accepted, Progress, Retains;
    assert visited + {at} + {at} == visited + {at};
  }

  lemma SoundCommit(w: World, m: Manifest, state: int)
    ensures Sound(w, m, state) ==> FullSha(m.commit)
  {
  }

  // ----- what holds along every accepted chain

  /** Where the predecessor of an accepted manifest is. */
  ghost function PriorAt(w: World, at: Bytes, state: nat, visited: set<Bytes>): (p: Bytes)
    requires Accepted(w, at, state, visited) && state > ATTRIBUTION_READY
    ensures Accepted(w, p, state - 1, visited + {at}) && p in w.files && at in w.files
    ensures Linked(w, w.files[at], at, w.files[p], p, state)
  {
    w.locate(at, w.files[at].prior.value.path).value
  }

  /** Where the manifest of the earlier state `j` is. */
  ghost function At(w: World, at: Bytes, state: nat, visited: set<Bytes>, j: nat): (p: Bytes)
    requires Accepted(w, at, state, visited) && ATTRIBUTION_READY <= j <= state
    ensures p in w.files
    decreases state
  {
    if j == state then at else At(w, PriorAt(w, at, state, visited), state - 1, visited + {at}, j)
  }

  /** Git's ancestry is a preorder on the commits that the repository has. */
  ghost predicate AncestryOrder(w: World) {
    && (forall c :: w.available(c) ==> w.isAncestor(c, c))
    && (forall a, b, c :: w.isAncestor(a, b) && w.isAncestor(b, c) ==> w.isAncestor(a, c))
  }

  /** What an earlier manifest hands up to a later one. */
  ghost predicate HandsUp(w: World, early: Bytes, late: Bytes, state: nat)
    requires early in w.files && late in w.files
  {
    var a, b := w.files[early], w.files[late];
    && Retains(w, b, late, a, early)
    && Progress(a, b)
    && w.isAncestor(a.commit, b.commit)
    && (state <= CROSS_PLATFORM_GO ==> a.commit == b.commit)
  }

  lemma RetainsSelf(w: World, m: Manifest, at: Bytes)
    ensures Retains(w, m, at, m, at)
  {
    forall i | 0 <= i < |m.entries| ensures Holds(w, m, at, m.entries[i], at) {
      assert Equivalent(w, m.entries[i], at, m.entries[i], at);
    }
  }

  lemma RetainsTransitive(w: World, a: Manifest, aAt: Bytes, b: Manifest, bAt: Bytes, c: Manifest, cAt: Bytes)
    requires Retains(w, b, bAt, a, aAt) && Retains(w, c, cAt, b, bAt)
    ensures Retains(w, c, cAt, a, aAt)
  {
    forall i | 0 <= i < |a.entries| ensures Holds(w, c, cAt, a.entries[i], aAt) {
      assert Holds(w, b, bAt, a.entries[i], aAt);
      var k :| 0 <= k < |b.entries| && Equivalent(w, b.entries[k], bAt, a.entries[i], aAt);
      var j :| 0 <= j < |c.entries| && Equivalent(w, c.entries[j], cAt, b.entries[k], bAt);
      assert Equivalent(w, c.entries[j], cAt, a.entries[i], aAt);
    }
  }

  /** The commit that an accepted manifest certifies is in the repository. */
  lemma CertifiedAvailable(w: World, at: Bytes, state: nat, visited: set<Bytes>)
    requires Accepted(w, at, state, visited)
    ensures at in w.files && w.available(w.files[at].commit)
  {
    hide Linked, ShapeFits, GitBinds, DistinctIds;
  }

  lemma {:induction false} HandsUpToTop(w: World, at: Bytes, state: nat, visited: set<Bytes>, i: nat)
    requires Accepted(w, at, state, visited) && ATTRIBUTION_READY <= i <= state && AncestryOrder(w)
    ensures at in w.files && HandsUp(w, At(w, at, state, visited, i), at, state)
    decreases state
  {
    hide Retains, Sound;
    if i == state {
      RetainsSelf(w, w.files[at], at);
      CertifiedAvailable(w, at, state, visited);
    } else {
      var p, below := PriorAt(w, at, state, visited), visited + {at};
      HandsUpToTop(w, p, state - 1, below, i);
      var early := At(w, at, state, visited, i);
      RetainsTransitive(w, w.files[early], early, w.files[p], p, w.files[at], at);
    }
  }

  /** In an accepted chain the states descend one by one, and every earlier
      manifest hands its artifacts, its refs and its commit up to every later one. */
  lemma {:induction false} ChainInvariant(w: World, at: Bytes, state: nat, visited: set<Bytes>, i: nat, j: nat)
    requires Accepted(w, at, state, visited) && ATTRIBUTION_READY <= i <= j <= state && AncestryOrder(w)
    ensures w.files[At(w, at, state, visited, j)].certified == j
    ensures HandsUp(w, At(w, at, state, visited, i), At(w, at, state, visited, j), j)
    decreases state
  {
    hide HandsUp, ShapeFits, GitBinds, DistinctIds;
    if j == state {
      HandsUpToTop(w, at, state, visited, i);
    } else {
      ChainInvariant(w, PriorAt(w, at, state, visited), state - 1, visited + {at}, i, j);
    }
  }

  /** The chain below a manifest never returns to a path it has been at. */
  lemma {:induction false} ChainPathsDistinct(w: World, at: Bytes, state: nat, visited: set<Bytes>, i: nat, j: nat)
    requires Accepted(w, at, state, visited) && ATTRIBUTION_READY <= i < j <= state
    ensures At(w, at, state, visited, i) != At(w, at, state, visited, j)
    decreases state
  {
    hide Sound, Linked;
    var p, below := PriorAt(w, at, state, visited), visited + {at};
    if j == state {
      NotVisited(w, p, state - 1, below, i);
    } else {
      ChainPathsDistinct(w, p, state - 1, below, i, j);
    }
  }

  lemma {:induction false} NotVisited(w: World, at: Bytes, state: nat, visited: set<Bytes>, i: nat)
    requires Accepted(w, at, state, visited) && ATTRIBUTION_READY <= i <= state
    ensures At(w, at, state, visited, i) !in visited
    decreases state
  {
    hide Sound, Linked;
    if i < state {
      NotVisited(w, PriorAt(w, at, state, visited), state - 1, visited + {at}, i);
    }
  }

  /** At the last state the named commits are in order: `r0` strictly before
      `r2`, `r2` before the deletion, the deletion before `r3`, which is the
      certified commit. */
  lemma SplitCompleteOrder(w: World, at: Bytes, visited: set<Bytes>)
    requires Accepted(w, at, SPLIT_COMPLETE, visited)
    ensures at in w.files && w.files[at].rssh.Some?
    ensures var e := w.files[at].rssh.value;
      && Named(e.r0) && Named(e.r2) && Named(e.r3Deletion) && Named(e.r3)
      && e.r0 != e.r2 && w.isAncestor(e.r0.value, e.r2.value)
      && w.isAncestor(e.r2.value, e.r3Deletion.value)
      && w.isAncestor(e.r3Deletion.value, e.r3.value)
      && e.r3 == Some(w.files[at].commit)
      && e.r2 == Some(w.files[PriorAt(w, at, SPLIT_COMPLETE, visited)].commit)
  {
    hide Retains, DistinctIds, FullSha, RTermFits;
    var p := PriorAt(w, at, SPLIT_COMPLETE, visited);
    assert Sound(w, w.files[p], DUAL_SOURCE_VERIFIED);
  }
}
