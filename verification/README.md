# Verified models of the R-SSH evidence gates, formats and scanners

R-SSH decides by evidence whether its terminal code may move to a repository of its own, whether a
performance gate holds, and whether a source file or an asset pack is exactly right. This project
models the code that makes those decisions and proves what acceptance means.

- **Git object proofs.** `RawTree`, `CommitBody`, `ObjectGraph`, `ObjectStore` and `RepositoryProof`
  model the checker that re-derives a Git object closure from supplied records; `Producer` models the
  script that makes such records, and `ClosureAgreement` shows that the two agree although they
  remember visited objects differently.
- **Trees as path maps.** `TreeMeaning` says what a tree means; `Frontier`, `TreeSize`,
  `FlattenState`, `Flatten` and `Snapshot` show that two stack-driven expansions compute that meaning
  within their budgets.
- **Extraction.** `OwnedProjection`, `Projection`, `ContentAddressing` and `Extraction` compose five
  validators into one statement about the first commit of the new repository.
- **Certification chain.** `ManifestChain` proves what every accepted chain of manifests keeps.
- **Consumer checkouts.** `Overlay` and `CheckoutProof` relate a delete-and-copy loop, a predicted file
  map and a file-by-file verification.
- **Performance gates.** `OrderStatistics` and `MetricShards` cover nearest-rank percentiles, the
  saturating form, and the combination of shards.
- **Colour schemes.** `SchemePack`, `SchemeIndex` and `Base64` cover the scheme-pack compiler.
- **Rust scanners.** `RustText`, `RustMask`, `RustLayout`, `Brackets`, `RustTokens` and
  `RustTestBodies` cover a position-preserving masker and a test-body extractor.
- **Host adapter and `scp`.** `LocalRuntime` is the latching effect adapter; `ScpOperands` the operand
  parser and the command it leads to.

Conventions. A byte string is a sequence of characters below 256, and text is held as its UTF-8 bytes.
Validators append to a violation list; evidence is accepted when the list is unchanged, and every
validator's contract says, in both directions, when that is. A digest is a function parameter. Nothing
assumes that it is injective: the one theorem that needs it asks that no two objects *in the evidence
at hand* collide (`ContentAddressing.CollisionFree`). `hide` statements only keep definitions out of a
proof that does not need them.

Six places where the code does not do what its texts say, or what one would expect. The models follow
the code, and each place has its exact condition:

- the safe-path test (scripts/ci/check-stage7-split-gate.py:1561-1572) drops empty and `.` components
  before it looks: `.`, `a//b` and `a/./b` pass, and a tree entry may be called `.`. The components of
  an accepted path are all proper exactly when none of them is empty or a lone dot
  (`GitPaths.SafePathProper`, `GitPaths.SafeName`, `RawTree.DotEntryAdmissible`);
- the overlay path test refuses `.` but accepts every other relative spelling of it, such as `./` and
  `./.`, which means the whole checkout (`Overlay.WholeCheckoutAccepted`). The verdict of the overlay
  loop then depends on the order of the roots exactly when the source has every root and a consumer
  file stands above one of them (`Overlay.OrderMatters`);
- the predicted files ignore a plain file standing exactly at an overlay root, so prediction and
  overlay agree exactly when both commits hold the same there or, with the whole checkout among the
  roots, everywhere outside the other roots (`Overlay.OverlaidIsExpected`, `Overlay.PredictionKeepsRootFile`);
- the masker skips one character after a backslash and looks for the `u` of a Unicode escape one place
  too late. Where its scan comes to stand at a character literal, the literal is masked exactly when its
  body has at most two characters; hexadecimal and Unicode escapes are missed (`RustMask.CharacterMasked`).
  The closing quote of a missed literal can then open a span of its own, so that the scan does not
  come to stand at the next literal and leaves that one in the text
  (`RustMask.AfterLiteral`, `RustMask.MissedLiteralKnocksOn`, `RustMask.KnockOnExample`);
- the overlay path test refuses paths in product-owned directories but not above them. Product files
  survive every overlay exactly when no root is the whole checkout or lies above such a directory
  (`Overlay.ProductFilesSurvive`);
- the tokenizer takes a quote, of a lifetime too, for the start of a literal exactly when another quote
  follows on its line, escapes skipped (`RustTokens.QuoteTaken`), and loses what stands between the two; a parameter list opened there is then closed without having been
  opened, and no body is found (`RustTestBodies.UnopenedParenthesis`).

`dafny verify dfyconfig.toml` verifies everything.

## Model

| member | source | states |
|---|---|---|
| `ByteStrings.FramedInjective` | scripts/ci/check-stage7-split-gate.py:1015-1050 | The framing that is hashed for an object ID loses nothing: equal framed bytes mean equal kind and equal body |
| `ByteStrings.HexUnhex` | scripts/ci/check-stage7-split-gate.py:1575-1633 | Writing an object ID as bytes and reading it back gives the same forty digits |
| `GitPaths.SplitJoin` | scripts/ci/check-stage7-split-gate.py:2222-2281 | Splitting a path at slashes recovers the plain names it was joined from |
| `GitPaths.JoinInjective` | scripts/ci/check-stage7-split-gate.py:2222-2281 | Different lists of plain names never give the same path |
| `GitPaths.SafePathProper` | scripts/ci/check-stage7-split-gate.py:1561-1572 | The components of an accepted path are all proper if and only if none of them is empty or a lone dot |
| `GitPaths.SafeName` | scripts/ci/check-stage7-split-gate.py:1561-1572 | A name without slashes is accepted if and only if it is the lone dot, or has no backslash or NUL and is a proper component |
| `GitPaths.DroppedExamples` | scripts/ci/check-stage7-split-gate.py:1561-1572 | Three accepted paths with a dropped component: ".", "a//b" and "a/./b" |
| `RawTree.AdmissibleNames` | scripts/ci/check-stage7-split-gate.py:1598-1615 | What a tree entry may be called: any proper name in UTF-8, or the lone dot |
| `RawTree.DotEntryAdmissible` | scripts/ci/check-stage7-split-gate.py:1598-1615 | A file called "." is accepted as a tree entry, whatever its object ID |
| `Base64.DecodeBase64` | crates/rssh-config/build.rs:96-136 | The loop succeeds exactly where every four-character group decodes, groups with early padding included, and returns their bytes in order |
| `Base64.DecodeEncode` | crates/rssh-config/build.rs:96-136 | Decoding the encoding of section 4 of RFC 4648 of any byte string gives the byte string back |
| `Base64.DeclaredLengthExact` | scripts/ci/check-stage7-split-gate.py:1080-1091 | On every canonical encoding the length predicted before decoding is the real one |
| `Base64.DecodeCanonical` | scripts/ci/check-stage7-split-gate.py:1053-1077 | Returns the body without a violation if and only if the text is the canonical encoding of a body within both limits |
| `Base64.AnyDecoderAgrees` | scripts/ci/check-stage7-split-gate.py:1053-1077 | After the re-encoding comparison, any library decoder that inverts the encoder accepts the same texts with the same bodies |
| `RawTree.SerializeInjective` | scripts/ci/check-stage7-split-gate.py:1575-1633 | Two admissible entry lists with the same bytes are the same list |
| `RawTree.ParseEntry` | scripts/ci/check-stage7-split-gate.py:1586-1628 | One turn of the loop: when it stops, what it counts against the entry budget, and that it is silent exactly on an admissible, new entry |
| `RawTree.ScanEntries` | scripts/ci/check-stage7-split-gate.py:1581-1628 | The loop consumes all bytes into entries that serialise back to them, and is silent on every serialised admissible list within the budget |
| `RawTree.ParseRawTree` | scripts/ci/check-stage7-split-gate.py:1575-1633 | No violation if and only if the bytes are the serialisation of a non-empty list with admissible entries, distinct names and canonical order that fits the budget; and then that list is returned |
| `CommitBody.ParseCommitBody` | scripts/ci/check-stage7-split-gate.py:1117-1137 | No violation if and only if the commit is well formed; parents and tree are those of the header lines |
| `CommitBody.SameTree` | scripts/ci/prove-rterm-external-source.py:718-742 | On a well-formed commit the producer's search for a tree line finds the tree that the checker reads from the first line |
| `Reachability.ClosedCovers` | scripts/ci/check-stage7-split-gate.py:1472-1515 | Any closed set contains everything reachable: reachability is the least closed set |
| `Reachability.SameReach` | scripts/ci/check-stage7-split-gate.py:1472-1515 | Two successor functions that agree on what one of them reaches, reach the same elements |
| `ObjectGraph.PushDemands` | scripts/ci/check-stage7-split-gate.py:1494-1511 | Visiting an object appends exactly its demands, and is silent exactly when the object is readable and free of gitlinks |
| `ObjectGraph.Traverse` | scripts/ci/check-stage7-split-gate.py:1472-1511 | The worklist always ends; what it records is demanded, and when it was silent everything demanded has been recorded with the demanded kind |
| `ObjectGraph.CheckClosure` | scripts/ci/check-stage7-split-gate.py:1472-1517 | No violation if and only if the supplied objects are exactly the demanded closure, each of the kind its referrer expects, with reachable boundaries |
| `ObjectGraph.ExactClosureIsLeast` | scripts/ci/check-stage7-split-gate.py:1472-1517 | The objects of an accepted closure are contained in every set that holds the refs and is closed under commit-to-tree, commit-to-parent and tree-to-entry edges |
| `ObjectGraph.SearchAncestor` | scripts/ci/check-stage7-split-gate.py:2208-2219 | True if and only if a chain of parents leads from the descendant to the ancestor |
| `ObjectGraph.IsAncestor` | scripts/ci/check-stage7-split-gate.py:2202-2219 | As the search, and false for anything that is not a full object ID |
| `ObjectStore.DecodeRecord` | scripts/ci/check-stage7-split-gate.py:1015-1050 | No violation if and only if the record carries a canonical body within the size limit under its own object ID |
| `ObjectStore.ParseObject` | scripts/ci/check-stage7-split-gate.py:1455-1470 | An authenticated object is filed silently if and only if it is well formed for its kind and fits the entry budget |
| `ObjectStore.Ingest` | scripts/ci/check-stage7-split-gate.py:1415-1470 | No violation if and only if every record is good, no ID repeats and the byte and entry totals stay within their budgets; the accounting branch without a predicted length is shown unreachable |
| `RepositoryProof.CheckShape` | scripts/ci/check-stage7-split-gate.py:1386-1410 | Silent exactly when the declared refs are the certified ones and full, the boundaries sorted, unique and certified, and the inventory sorted within its bounds |
| `RepositoryProof.CheckRepository` | scripts/ci/check-stage7-split-gate.py:1380-1517 | One repository is accepted if and only if shape, ingestion and exact closure hold; the result is the graph of the stored objects |
| `Producer.ParseTree` | scripts/ci/prove-rterm-external-source.py:661-679 | The cursor loop succeeds exactly where the records can be cut one after another, and returns them |
| `Producer.ParsersAgree` | scripts/ci/prove-rterm-external-source.py:661-679 | On the bytes of any admissible entry list the producer's parser returns the same modes, names and IDs as the checker's |
| `Producer.GitClosure.ReadObject` | scripts/ci/prove-rterm-external-source.py:687-716 | Succeeds exactly when the object can be fetched under the asked kind, and records exactly that object |
| `Producer.GitClosure.Expand` | scripts/ci/prove-rterm-external-source.py:722-740 | Reading one object and listing what it asks for, with the exact condition for success |
| `Producer.GitClosure.Collect` | scripts/ci/prove-rterm-external-source.py:718-742 | The loop ends with every asked-for object explored and recorded, and fails only where one cannot be followed |
| `Producer.GitClosure.Walk` | scripts/ci/prove-rterm-external-source.py:718-742 | Succeeds if and only if everything asked for can be followed and the count limit holds; the field then gains exactly the objects the walk asks for |
| `ClosureAgreement.ClosuresAgree` | scripts/ci/prove-rterm-external-source.py:718-742 | On every sound repository the producer's walk, which remembers demands, and the checker's, which remembers IDs, reach the same demands |
| `ClosureAgreement.ProducedClosureAccepted` | scripts/ci/prove-rterm-external-source.py:718-742 | What the producer collects from a sound repository passes the checker's closure test |
| `RepositoryProof.ProducedProofAccepted` | scripts/ci/prove-rterm-external-source.py:744-823 | End to end: the records listed from the closure that the producer collects in a sound repository are accepted by the checker if and only if they fit its count, byte and entry limits |
| `TreeMeaning.MeansUnique` | scripts/ci/check-stage7-split-gate.py:2222-2281 | A tree with plain, distinct names has exactly one path-to-leaf map |
| `FlattenState.RecordLeaf` | scripts/ci/check-stage7-split-gate.py:2270-2280 | Recording a leaf keeps the loop invariant: the leaf is new, so the duplicate-path branch cannot fire |
| `FlattenState.PushDir` | scripts/ci/check-stage7-split-gate.py:2261-2266 | Pushing a subdirectory keeps the loop invariant, and the directory is new even when its tree is shared |
| `FlattenState.Done` | scripts/ci/check-stage7-split-gate.py:2222-2281 | With an empty stack the invariant says that the leaves are the meaning of the tree and the budgets count all of it |
| `Flatten.ReadEntries` | scripts/ci/check-stage7-split-gate.py:2247-2280 | Reading one directory keeps the budgets at every step and the invariant, and is silent exactly without gitlinks when the tree fits |
| `Flatten.FlattenTree` | scripts/ci/check-stage7-split-gate.py:2222-2281 | On trees with plain, distinct names: no violation if and only if the tree is readable, gitlink-free and within node, leaf and path-byte budgets; and then the result is the recursive meaning of the tree |
| `Snapshot.FileTree` | scripts/ci/check-stage7-split-gate.py:1695-1711 | A decoded tree is filed silently if and only if its ID is right and new, it parses and it fits the entry budget |
| `Snapshot.IngestTree` | scripts/ci/check-stage7-split-gate.py:1661-1711 | One record, with the running byte total bounded on every path |
| `Snapshot.IngestTrees` | scripts/ci/check-stage7-split-gate.py:1655-1711 | No violation if and only if every tree record is good, distinct and within the totals |
| `Snapshot.ReadSnapshotEntries` | scripts/ci/check-stage7-split-gate.py:1742-1772 | One directory of the expansion, with the budgets held at every step |
| `Snapshot.ExpandSnapshot` | scripts/ci/check-stage7-split-gate.py:1713-1772 | Silent exactly when the tree fits the budgets and every subtree is supplied; the result is its meaning and its reachable trees |
| `Snapshot.ValidateSnapshot` | scripts/ci/check-stage7-split-gate.py:1636-1781 | Accepted if and only if the trees are the authenticated, complete and minimal expansion of the expected root; the result is the meaning of that tree |
| `Sorting.SortSet` | scripts/ci/check-stage7-split-gate.py:1843-1931 | The sorted list of a set, by insertion |
| `Sorting.SortedUnique` | scripts/ci/check-stage7-split-gate.py:1843-1931 | A set has one sorted list |
| `OwnedProjection.MatchRule` | scripts/ci/check-stage7-split-gate.py:1880-1906 | One ownership rule: its owned leaves in order, silent exactly when the rule holds |
| `OwnedProjection.CollectRule` | scripts/ci/check-stage7-split-gate.py:1907-1928 | Collecting the targets of one rule is silent exactly when no leaf is claimed twice and only a template reuses an earlier target |
| `OwnedProjection.DeriveRule` | scripts/ci/check-stage7-split-gate.py:1872-1928 | One rule from matching to collection |
| `OwnedProjection.Derive` | scripts/ci/check-stage7-split-gate.py:1843-1931 | No violation if and only if every rule holds, no leaf is claimed twice and only a template reuses an earlier target; the mappings are those of the rules in order |
| `OwnedProjection.DerivedIsOwned` | scripts/ci/check-stage7-split-gate.py:1843-1931 | A derived mapping list holds exactly the owned leaves with their targets, each leaf once |
| `ContentAddressing.SameObject` | scripts/ci/check-stage7-split-gate.py:1636-1711 | Two authenticated stores without a collision between their objects hold the same object under the same ID |
| `ContentAddressing.MeaningsAgree` | scripts/ci/check-stage7-split-gate.py:1636-1781 | So a tree complete in one store has the same meaning in the other |
| `ContentAddressing.StoreTreesClosed` | scripts/ci/check-stage7-split-gate.py:1472-1517 | In an exact closure every tree below a demanded tree is present |
| `ContentAddressing.CommitTreePresent` | scripts/ci/check-stage7-split-gate.py:1472-1517 | In an exact closure the tree of a demanded commit is present |
| `Projection.SortMappings` | scripts/ci/check-stage7-split-gate.py:1929-1931 | Sorting by target and source, by insertion |
| `Projection.SortedFormUnique` | scripts/ci/check-stage7-split-gate.py:1929-1931 | Mappings with distinct sources have one sorted form |
| `Projection.ValidateInventory` | scripts/ci/check-stage7-split-gate.py:1934-2001 | Accepted if and only if the inventory is bound to R0, is the sorted derived list and covers the templates |
| `Projection.CheckMappings` | scripts/ci/check-stage7-split-gate.py:2042-2079 | Silent exactly when the mappings take source leaves one to one, unchanged, onto the whole filtered tree |
| `Projection.CoveringIsApply` | scripts/ci/check-stage7-split-gate.py:2042-2079 | Faithful, covering mappings determine the filtered leaf map: it is the empty map with the mappings written into it |
| `Projection.ValidateTreeProjection` | scripts/ci/check-stage7-split-gate.py:2004-2098 | Accepted if and only if refs and trees are bound, the snapshot is accepted and the mappings are faithful and covering |
| `Projection.CheckGenerated` | scripts/ci/check-stage7-split-gate.py:2333-2353 | Silent exactly for two generated lockfiles at the two allowed paths whose blobs are in the store |
| `Projection.CheckProduct` | scripts/ci/check-stage7-split-gate.py:2354-2371 | Silent exactly when no generated path was already there and R1 is the filtered map with templates and lockfiles written over it |
| `Projection.ValidateBootstrap` | scripts/ci/check-stage7-split-gate.py:2284-2378 | Accepted if and only if all of that holds of the flattened filtered and R1 trees |
| `Extraction.ValidateStore` | scripts/ci/check-stage7-split-gate.py:2161-2199 | Accepted if and only if both repositories are, with the exact boundaries, and R1 has the filtered commit as its only parent |
| `Extraction.CheckCrossBinding` | scripts/ci/check-stage7-split-gate.py:2381-2470 | Silent exactly when the object stores coincide, and projection and bootstrap split the inventory between them |
| `Extraction.SnapshotIsStoreTree` | scripts/ci/check-stage7-split-gate.py:2004-2098 | The meaning of the accepted snapshot is the meaning of the filtered tree in the object store |
| `Extraction.AcceptanceDeterminesR1` | scripts/ci/check-stage7-split-gate.py:2381-2470 | If all validators accept, R1 is fully determined: the owned historical leaves renamed one to one, overridden by the templates, plus exactly two lockfile blobs |
| `Extraction.R1Paths` | scripts/ci/check-stage7-split-gate.py:2354-2371 | A path is a leaf of R1 if and only if it is one of the two lockfiles or the target of an owned leaf |
| `Extraction.R1KeepsHistory` | scripts/ci/check-stage7-split-gate.py:2354-2371 | An owned historical leaf that no template or lockfile overrides is in R1 with its own mode and blob |
| `Extraction.R1Everywhere` | scripts/ci/check-stage7-split-gate.py:2354-2371 | What R1 holds at any path: a generated lockfile at its own path, else the last template sent there, else the historical leaf sent there, else nothing |
| `Extraction.LastToMeaning` | scripts/ci/check-stage7-split-gate.py:2354-2371 | The last mapping sent to a path is the one that no later mapping overrides, and exists exactly for the targets |
| `Extraction.ValidateHistoryMap` | scripts/ci/check-stage7-split-gate.py:4179-4229 | The history map artifact is accepted if and only if store, derivation, bootstrap and projection are |
| `Extraction.CertifyExtraction` | scripts/ci/check-stage7-split-gate.py:4160-4237 | Running all validators accepts if and only if every condition holds; and without a hash collision in the evidence acceptance determines R1 |
| `ManifestChain.CheckShape` | scripts/ci/check-stage7-split-gate.py:4896-4925 | Silent exactly when each epoch ref is named from the state that certifies it on, and not before |
| `ManifestChain.CheckRSshBindings` | scripts/ci/check-stage7-split-gate.py:4837-4884 | Silent exactly when the local refs exist and lie in the required order around the certified commit |
| `ManifestChain.CheckGitBindings` | scripts/ci/check-stage7-split-gate.py:4837-4893 | The same together with the foreign refs |
| `ManifestChain.CheckProgression` | scripts/ci/check-stage7-split-gate.py:4928-4944 | Silent exactly when no named ref of the prior epoch is dropped or changed |
| `ManifestChain.CheckAgainstPrior` | scripts/ci/check-stage7-split-gate.py:5263-5289 | Silent exactly when commit identity, epoch progress, commit order and artifact retention hold between two manifests |
| `ManifestChain.ValidatePrior` | scripts/ci/check-stage7-split-gate.py:5219-5291 | Silent exactly when the predecessor is located, hashed, accepted for the state below and linked |
| `ManifestChain.Validate` | scripts/ci/check-stage7-split-gate.py:5049-5291 | The recursion ends on every chain, cyclic ones included, and accepts exactly the sound chains |
| `ManifestChain.ChainInvariant` | scripts/ci/check-stage7-split-gate.py:5219-5291 | In every accepted chain the states descend one by one; every earlier artifact survives to every later manifest, no named ref changes, the first three states share one commit and later commits are ancestry-ordered |
| `ManifestChain.ChainPathsDistinct` | scripts/ci/check-stage7-split-gate.py:5062-5070 | No manifest occurs twice in an accepted chain |
| `ManifestChain.SplitCompleteOrder` | scripts/ci/check-stage7-split-gate.py:4837-4884 | At split-complete all refs are named, r0 strictly precedes r2, which precedes the deletion commit, which precedes r3; r3 is the certified commit and r2 the one certified before |
| `Overlay.BelowIsContainment` | scripts/ci/rehearse-rterm-consumer.py:61-77 | The textual prefix test of two joined paths is containment of their component lists |
| `Overlay.NormalIdempotent` | scripts/ci/rehearse-rterm-consumer.py:61-77 | Normalising a path keeps its parts and is a projection |
| `Overlay.NormalFixed` | scripts/ci/rehearse-rterm-consumer.py:61-77 | A path is its own normal form if and only if it is the lone dot or none of its components is dropped |
| `Overlay.AcceptedPathContained` | scripts/ci/rehearse-rterm-consumer.py:61-77 | A path is accepted if and only if it is relative, is not the bare dot, has no backslash and no parent step, and no product-owned root is a prefix of its components |
| `Overlay.WholeCheckoutAccepted` | scripts/ci/rehearse-rterm-consumer.py:61-77 | A path is accepted as the whole checkout if and only if it is relative, is not "." itself and consists of empty and dot components only |
| `Overlay.WholeCheckoutExamples` | scripts/ci/rehearse-rterm-consumer.py:61-77 | "." is refused; "./", "./." and "././." are accepted and mean the same |
| `Overlay.ContractOverlayPaths` | scripts/ci/rehearse-rterm-consumer.py:80-96 | Succeeds if and only if every path is accepted and no normalised path lies below another; the result is the list without repetitions in order of first appearance |
| `Overlay.Checkout.OverlayPaths` | scripts/ci/rehearse-rterm-consumer.py:122-136 | Succeeds if and only if each root exists in the source and is not blocked by a consumer file still in place; the checkout is then the declarative overlay, and on failure the overlay of the roots before the failing one; it stays a tree throughout |
| `Overlay.OneRoot` | scripts/ci/rehearse-rterm-consumer.py:122-136 | Removing what the consumer has under a root and copying what the source has there is the declarative overlay of that root |
| `Overlay.OverlaidTreeShaped` | scripts/ci/rehearse-rterm-consumer.py:122-136 | Laying an unblocked root never makes a path both file and directory |
| `Overlay.ReadyMeaning` | scripts/ci/rehearse-rterm-consumer.py:122-136 | For every list of separate roots, success means that the source has each root and that any root below a consumer file comes after the whole checkout |
| `Overlay.OverlayIgnoresOrder` | scripts/ci/rehearse-rterm-consumer.py:122-136 | What is laid never depends on the order of the roots, and success does not either unless the roots are order-sensitive: the whole checkout among them, all in the source, one of them below a consumer file |
| `Overlay.OrderMatters` | scripts/ci/rehearse-rterm-consumer.py:122-136 | Some rearrangement of the roots gets another verdict if and only if the roots are order-sensitive |
| `Overlay.OrderMattersExample` | scripts/ci/rehearse-rterm-consumer.py:122-136 | A concrete pair of trees and a path list that the contract accepts, where one order of its roots succeeds and the other fails |
| `Overlay.ProductFilesSurvive` | scripts/ci/rehearse-rterm-consumer.py:61-136 | Every successful overlay of the roots that a contract yields leaves the product-owned files as they were if and only if no root is the whole checkout or lies above a product-owned directory |
| `Overlay.AcceptedListIsContract` | scripts/ci/rehearse-rterm-consumer.py:80-96 | What an accepted path list yields is separate and made of normal forms of accepted paths |
| `Overlay.ProductLostExample` | scripts/ci/rehearse-rterm-consumer.py:61-77 | The path "crates" is accepted and lies above product-owned directories |
| `Overlay.OverlaidIsExpected` | scripts/ci/prepare-rterm-consumer.py:72-82 | For every list of separate roots, the laid tree equals the predicted one if and only if the two commits agree at each root itself or, with the whole checkout among the roots, everywhere outside the other roots |
| `Overlay.PredictionKeepsRootFile` | scripts/ci/prepare-rterm-consumer.py:72-82 | Wherever the consumer has a file at a root that is a directory in the source, the prediction keeps both and is no tree, and the loop does not |
| `Overlay.RootFileExample` | scripts/ci/prepare-rterm-consumer.py:72-82 | A concrete pair of trees where prediction and overlay differ |
| `CheckoutProof.CheckFile` | scripts/ci/prepare-rterm-consumer.py:110-118 | One file passes exactly when it is permitted and has the permitted blob and, where it is visible, mode |
| `CheckoutProof.VerifyCheckout` | scripts/ci/prepare-rterm-consumer.py:95-121 | Succeeds if and only if the root is no link, overrides stay in the allowlist, nothing visited is a link and the checkout holds exactly the permitted files |
| `CheckoutProof.HoldsIsEquality` | scripts/ci/prepare-rterm-consumer.py:95-121 | Where modes are visible, the file-by-file test is equality of the checkout map with the permitted map |
| `CheckoutProof.LaidCheckoutVerifies` | scripts/ci/prepare-rterm-consumer.py:95-121 | A checkout holding the laid tree with any overrides passes against the prediction with those overrides if and only if the two commits agree at the overlay roots that are not overridden |
| `OrderStatistics.Sort` | scripts/ci/check-stage7-split-gate.py:295-302 | The sorted list is ordered and a permutation of the samples |
| `OrderStatistics.NearestRankGate` | scripts/ci/check-stage7-split-gate.py:295-302 | For every non-empty list and rational percentile in (0, 1], the statistic is one of the samples and meets a gate if and only if at least the rounded-up share of the samples does |
| `OrderStatistics.NearestRankIgnoresOrder` | scripts/ci/check-stage7-split-gate.py:295-302 | Nearest rank depends on the multiset of samples alone |
| `OrderStatistics.StatisticsIgnoreOrder` | scripts/ci/check-stage7-split-gate.py:985-990 | So do the recomputed statistics |
| `OrderStatistics.RankIsNearestRank` | scripts/ci/stage7_product_runner.py:34-36 | The product runner's rank is the gate's nearest rank for every whole percentile from 1 to 100 |
| `OrderStatistics.AggregateIsRecomputed` | scripts/ci/stage7_product_runner.py:39-42 | The runner's aggregate, errors included, is the gate's recomputation over per-run medians and all samples |
| `OrderStatistics.SaturatingIndexCorrect` | crates/rssh-app/src/bench.rs:632-639 | The saturating index is in bounds for every non-zero 64-bit length, and is the exact one if and only if the unsaturated numerator stays below the next hundred |
| `OrderStatistics.Percentile95` | crates/rssh-app/src/bench.rs:627-640 | Sorts the slice in place, returns zero for an empty one, and equals nearest rank and rank at 95 wherever the index is exact |
| `MetricShards.Cohorts.CheckSetup` | scripts/ci/check-stage7-split-gate.py:3498-3513 | Silent exactly when warmups, protocol fields and protocol are those of the first record |
| `MetricShards.Cohorts.CheckCell` | scripts/ci/check-stage7-split-gate.py:3539-3557 | Silent exactly when the shard describes the same group cell |
| `MetricShards.Cohorts.Absorb` | scripts/ci/check-stage7-split-gate.py:3493-3577 | One record extends the table to exactly what all records so far say, and is silent exactly when it fits them |
| `MetricShards.ConsistentMeaning` | scripts/ci/check-stage7-split-gate.py:3493-3577 | The running checks against first record and union amount to pairwise agreement of all records |
| `MetricShards.FinishGroup` | scripts/ci/check-stage7-split-gate.py:3626-3671 | A group is accepted if and only if it is an unsupported cell seen once, or has thirty distinct processes apart from the warmups, reported statistics that match and gates that hold |
| `MetricShards.CombineMetricShards` | scripts/ci/check-stage7-split-gate.py:3481-3673 | No violation if and only if the records are consistent, the group inventory is the required one and every group is accepted; the results are the groups' statistics in contract order |
| `MetricShards.ShardingIrrelevant` | scripts/ci/check-stage7-split-gate.py:3569-3572 | However the processes of a group are split over shards and ordered, its statistics, process count and identities are the same |
| `MetricShards.VerdictIgnoresSharding` | scripts/ci/check-stage7-split-gate.py:3626-3671 | And an accepted group stays accepted under resharding |
| `MetricShards.GateMeaning` | scripts/ci/check-stage7-split-gate.py:2825-2847 | With thirty processes the gates say: at least 15 representatives within the median gate, at least 29 within the 95th-percentile gate, every raw sample within the maxima |
| `SchemePack.Take` | crates/rssh-config/build.rs:60-69 | Succeeds exactly when the bytes are there; the cursor never leaves the input |
| `SchemePack.TakeInteger` | crates/rssh-config/build.rs:38-58 | The little-endian value at the cursor, exactly when it is all there |
| `SchemePack.TakeRecord` | crates/rssh-config/build.rs:78-86 | One record is read exactly when its lengths fit and its text and TOML are valid |
| `SchemePack.ReadIsEncoded` | crates/rssh-config/build.rs:77-89 | What is read at a cursor is the record whose encoding lies there |
| `SchemePack.EncodedIsRead` | crates/rssh-config/build.rs:77-89 | An encoded record is read back from wherever it lies, leaving the rest |
| `SchemePack.ParsePack` | crates/rssh-config/build.rs:71-94 | Succeeds if and only if the input is magic, count and that many valid records with distinct names, every byte consumed; the result is the map of those records |
| `SchemePack.EncodePackInjective` | crates/rssh-config/build.rs:71-94 | The encoding determines the records and their order |
| `SchemePack.MapOfListing` | crates/rssh-config/build.rs:71-94 | Whatever order a finite map is written in, the same map is read |
| `SchemeIndex.ParseAliases` | crates/rssh-config/build.rs:138-150 | Succeeds exactly when every line but the comments declares an alias and no name repeats; the result is that table |
| `SchemeIndex.AliasesReadBack` | crates/rssh-config/build.rs:138-150 | Any list of aliases with textual names, written line by line, is read back |
| `SchemeIndex.RustInteger` | crates/rssh-config/build.rs:26-36 | The decimal digits in groups of three, which read back to the value |
| `SchemeIndex.CompileBlob` | crates/rssh-config/build.rs:225-233 | Succeeds exactly when all starts and lengths fit 32 bits; blob and ranges are those of the ordered schemes |
| `SchemeIndex.RangeIsContents` | crates/rssh-config/build.rs:225-233 | Each range slices the blob to its scheme's contents |
| `SchemeIndex.RangesTile` | crates/rssh-config/build.rs:225-233 | Every byte of the blob lies in exactly one range |
| `SchemeIndex.BuildIndex` | crates/rssh-config/build.rs:235-245 | Entry by entry, the numerals read back and slice the blob to the contents of the alias's scheme |
| `SchemeIndex.Assemble` | crates/rssh-config/build.rs:225-245 | Blob and index over ordered schemes and strictly ascending alias names |
| `SchemeIndex.Run` | crates/rssh-config/build.rs:160-245 | Succeeds if and only if pack, alias table, shadowed list and manifest are well formed, partition the schemes and agree in counts and digest; every alias then leads to the contents that the parsed records hold for its scheme |
| `RustText.NestedBlockCommentEnd` | scripts/ci/check-rust-architecture.py:94-106 | Where the nesting depth first returns to zero, or the end of the source; always inside the source |
| `RustText.SkipBlockComment` | scripts/ci/task10_rust_test_body.py:134-148 | The same place, or an error when there is none |
| `RustText.SkippersAgree` | scripts/ci/task10_rust_test_body.py:134-148 | The two skippers agree wherever the strict one succeeds, and differ exactly on unterminated comments |
| `RustMask.Blank` | scripts/ci/check-rust-architecture.py:88-91 | Blanks exactly the range and leaves line breaks |
| `RustMask.ScanAt` | scripts/ci/check-rust-architecture.py:53-83 | The branches at one position find exactly the span that starts there, if one does |
| `RustMask.RawEnd` | scripts/ci/check-rust-architecture.py:109-126 | The end of a raw string with at most 255 hashes |
| `RustMask.QuotedEnd` | scripts/ci/check-rust-architecture.py:129-138 | The end of a quoted literal, escapes skipped |
| `RustMask.MaskRustNonCode` | scripts/ci/check-rust-architecture.py:48-85 | The buffer loop ends and produces exactly the recursive masking of the source |
| `RustMask.MaskProperties` | scripts/ci/check-rust-architecture.py:48-91 | Masking keeps the length and every line break, changes a character only to a space, and leaves no double quote, no line-comment and no block-comment opener |
| `RustText.NestedCommentIsUnit` | scripts/ci/check-rust-architecture.py:94-106 | Closing several levels of comment is closing the inner ones and then the outer ones: a nested comment is skipped as a unit |
| `RustMask.StringSpan` | scripts/ci/check-rust-architecture.py:129-138 | At a string literal without inner quotes or escapes one span starts and ends with it |
| `RustMask.CommentSpan` | scripts/ci/check-rust-architecture.py:94-106 | At a block comment without inner marks one span starts and ends with it |
| `RustMask.RawSpan` | scripts/ci/check-rust-architecture.py:109-126 | At a raw string a span starts and ends with the first quote that its own number of hashes follows |
| `RustMask.QuotedBody` | scripts/ci/check-rust-architecture.py:141-154 | At any quoted text whose body is one character or starts with a backslash, one span starts and ends with it if and only if the body has one character, or two with the backslash |
| `RustMask.CharacterSpans` | scripts/ci/check-rust-architecture.py:141-154 | At a Rust character literal a span starts and ends with it if and only if its body has at most two characters; in a longer one, a hexadecimal or Unicode escape, no span starts anywhere before the closing quote |
| `RustMask.MaskedPosition` | scripts/ci/check-rust-architecture.py:48-85 | What the masker does to any position of any source: it keeps the character exactly where the scan stands and no span starts, and blanks it everywhere else |
| `RustMask.StretchBlanked` | scripts/ci/check-rust-architecture.py:48-85 | Any stretch of any source is blanked if and only if the scan stands, without a span, at nothing in it but blanks and line breaks |
| `RustMask.CharacterMasked` | scripts/ci/check-rust-architecture.py:48-85 | Wherever the scan comes to stand at a character literal, the masker blanks the literal if and only if its body has at most two characters |
| `RustMask.AfterLiteral` | scripts/ci/check-rust-architecture.py:48-85 | After a masked literal the scan stands behind it; after a missed one it stands at the closing quote, and gets behind that, in step again, if and only if the quote opens no span |
| `RustMask.MissedLiteralKnocksOn` | scripts/ci/check-rust-architecture.py:75-83 | After a missed literal, when one character and a quote follow, the masker blanks from the closing quote to that quote instead |
| `RustMask.KnockOnExample` | scripts/ci/check-rust-architecture.py:75-83 | In two neighbouring literals, a hexadecimal escape and a brace, the scan never stands at the second and its brace stays in the masked text |
| `RustMask.MissedLiteralSurvives` | scripts/ci/check-rust-architecture.py:48-85 | A missed literal stays in the masked text up to its closing quote |
| `RustMask.UnicodeEscapeMissed` | scripts/ci/check-rust-architecture.py:145-151 | Wherever a quote, a backslash and "u{" stand, no span starts, whatever follows |
| `RustMask.LiteralExamples` | scripts/ci/check-rust-architecture.py:141-154 | Two literals at which no span starts and two at which one does |
| `RustMask.LifetimeKept` | scripts/ci/check-rust-architecture.py:141-154 | A lifetime is not taken for a character literal |
| `RustTokens.IdentifierEnd` | scripts/ci/task10_rust_test_body.py:122-127 | An identifier is the longest run of word characters |
| `RustMask.MaskLeavesCode` | scripts/ci/check-rust-architecture.py:48-85 | A text in which no comment or literal starts is unchanged |
| `RustLayout.BisectRight` | scripts/ci/check-rust-architecture.py:40-45 | The number of positions at or below the given one |
| `RustLayout.LineMap.Line` | scripts/ci/check-rust-architecture.py:44-45 | One more than a plain count of the line feeds up to the position |
| `RustLayout.MaskedLineNumbers` | scripts/ci/check-rust-architecture.py:378-480 | A position has the same line number in the masked text and in the source |
| `RustLayout.MatchingBrace` | scripts/ci/check-rust-architecture.py:157-167 | The first position where the brace depth returns to zero, or proof that it never does |
| `RustLayout.MaskCfgTestModules` | scripts/ci/check-rust-architecture.py:170-181 | Exactly the test modules that close are blanked, and nothing else changes |
| `RustLayout.ModulesKeepLines` | scripts/ci/check-rust-architecture.py:170-181 | Blanking modules changes no line number |
| `Brackets.CloseMeaning` | scripts/ci/task10_rust_test_body.py:89-100 | The search for a matching bracket finds the first return to depth zero, or there is none |
| `Brackets.NestedOrDisjoint` | scripts/ci/task10_rust_test_body.py:89-100 | Two matched bracket pairs are nested or disjoint |
| `RustTokens.Tokens` | scripts/ci/task10_rust_test_body.py:103-131 | The token loop refines the recursive scan, and its tokens are ordered, disjoint, exact, non-empty slices of the source |
| `RustTokens.ScanLiteral` | scripts/ci/task10_rust_test_body.py:151-164 | Which literal starts at a position and where it ends, errors included |
| `RustTokens.QuotedStretch` | scripts/ci/task10_rust_test_body.py:161-164 | A quote swallows everything up to the next quote on its line when no backslash stands between, so two lifetimes on one line count as one literal |
| `RustTokens.LoneQuote` | scripts/ci/task10_rust_test_body.py:161-164 | A quote that no other quote follows on its line swallows nothing |
| `RustText.QuoteEndMeaning` | scripts/ci/task10_rust_test_body.py:188-204 | The search for a closing quote finds the first quote that it comes to stand at, escapes skipped and before any line feed that ends it, or there is none |
| `RustTokens.QuoteTaken` | scripts/ci/task10_rust_test_body.py:161-164 | At any quote of any source a literal is taken to start if and only if a quote closes it on its line, escapes skipped, and it ends there |
| `RustTokens.LifetimeSwallows` | scripts/ci/task10_rust_test_body.py:161-164 | On a line whose rest has no backslash, a quote is taken for the start of a literal if and only if another quote follows on the line, and the literal ends with the next one |
| `RustTokens.LifetimesExample` | scripts/ci/task10_rust_test_body.py:161-164 | Between two lifetimes the opening parenthesis of a parameter list is swallowed |
| `RustTokens.TokensAreSlices` | scripts/ci/task10_rust_test_body.py:103-131 | Tokens are ordered, disjoint, exact, non-empty slices |
| `RustTestBodies.Matching` | scripts/ci/task10_rust_test_body.py:89-100 | The token that closes the bracket, or an error |
| `RustTestBodies.FunctionBodyStart` | scripts/ci/task10_rust_test_body.py:69-86 | The first brace outside all parentheses and brackets, unless a semicolon comes first |
| `RustTestBodies.UnopenedParenthesis` | scripts/ci/task10_rust_test_body.py:69-86 | Behind a parenthesis that closes without having been opened, as after two such lifetimes, no body is found |
| `RustTestBodies.ScanGood` | scripts/ci/task10_rust_test_body.py:33-66 | The extracted functions come in order, have matched top-level bodies, and each consumes a test attribute of its own |
| `RustTestBodies.BodiesNestOrAreDisjoint` | scripts/ci/task10_rust_test_body.py:33-66 | Bodies are brace-balanced, and any two are nested, equal or disjoint in the source |
| `RustTestBodies.BodyMapAt` | scripts/ci/task10_rust_test_body.py:54-63 | Under each extracted name lies exactly that function's slice |
| `RustTestBodies.TestBodies` | scripts/ci/task10_rust_test_body.py:33-66 | Succeeds if and only if every pending function has a name and a closed body and no name repeats; the result maps each name to its body |
| `RustTestBodies.TestBodiesOf` | scripts/ci/task10_rust_test_body.py:33-66 | The same from the source text |
| `LocalRuntime.Host.Apply` | crates/rssh-app/src/local_terminal_runtime.rs:147-183 | The effects that the policy passes are committed in order up to the first failure, which is never a clipboard write; mode changes are reported only when all succeeded |
| `LocalRuntime.Adapter.Write` | crates/rssh-app/src/local_terminal_runtime.rs:72-99 | After a failure nothing changes; otherwise the runtime advances over the whole batch even when the host fails in the middle, and a failure latches |
| `LocalRuntime.Adapter.Finish` | crates/rssh-app/src/local_terminal_runtime.rs:101-126 | The same for the trailing batch, whose mode changes go unreported |
| `LocalRuntime.Adapter.Settle` | crates/rssh-app/src/local_terminal_runtime.rs:83-98 | Replaying a batch keeps the invariant that committed effects are an ordered prefix of the filtered effects |
| `LocalRuntime.FaithfulStep` | crates/rssh-app/src/local_terminal_runtime.rs:147-183 | The prefix invariant survives one more batch, and is proper exactly after a failure |
| `LocalRuntime.Drive` | crates/rssh-app/src/local_terminal_runtime.rs:72-136 | Over any sequence of calls: outcomes are successes up to the first failure and failures after it, no effect follows it, committed effects are an ordered prefix of the filtered effects of all batches, and the reported mode changes are those of the successful writes |
| `LocalRuntime.CompleteRun` | crates/rssh-app/src/local_terminal_runtime.rs:72-136 | A run without failure commits every effect the policy lets through |
| `LocalRuntime.OnlyPermittedEvents` | crates/rssh-app/src/local_terminal_runtime.rs:158-172 | No clipboard write is ever committed under the off policy, and no clipboard answer under any policy but read-write |
| `ScpOperands.SplitPrint` | crates/rssh-app/src/cli.rs:1280-1287 | A printed remote operand splits into its target and path |
| `ScpOperands.PrintSplit` | crates/rssh-app/src/cli.rs:1280-1287 | An operand that splits is printed back unchanged |
| `ScpOperands.DrivePathIsLocal` | crates/rssh-app/src/cli.rs:1280-1291 | A drive-letter path is a local operand |
| `ScpOperands.UploadPrints` | crates/rssh-app/src/scp.rs:94-121 | The transfer inferred from local sources and a remote destination prints exactly those operands |
| `ScpOperands.DownloadPrints` | crates/rssh-app/src/scp.rs:94-121 | The transfer inferred from remote sources of one target prints exactly the operands |
| `ScpOperands.ScpParse.Infer` | crates/rssh-app/src/cli.rs:1207-1278 | Which operand lists are uploads or downloads, which fail, and what target and transfer each leaves |
| `ScpOperands.ScpParse.ApplyPositionals` | crates/rssh-app/src/cli.rs:1182-1204 | With two or more operands and no explicit direction a transfer results exactly for a transferable list without a selected host, and printing it gives the operands back in order |
| `ScpOperands.ScpCommand` | crates/rssh-app/src/scp.rs:56-74 | Options first, then the operands of the transfer with the target before each remote path |
| `ScpOperands.ParseAndPrint` | crates/rssh-app/src/scp.rs:56-74 | The generated command line ends with exactly the given operands in their order |
| `ScpOperands.PrintAndParse` | crates/rssh-app/src/cli.rs:1207-1278 | Every well-formed transfer is read back from its own operands |

## Left out

- JSON field presence, schema keywords, claim tables, digests over JSON text and the wording of messages: settled branch by branch. A structured value that is only compared is held as text, and digests that bind one JSON value to another are represented by equality of the values.
- The replay of a bare repository, loose objects, zlib and `git fsck`; `git ls-tree` output, commit availability and ancestry in a real repository are given values.
- Metric artifacts before combination, fonts, resource counters, the last-known-good cohort and the matrix rule for unsupported suffixes.
- Fragments of a manifest and the checks on single artifacts: they enter `ManifestChain` as the given findings of `World.otherFindings`.
- Flatten.FlattenTree: its iff is stated for trees with plain, distinct names, which every accepted store has; for others only the leaf budget is promised.
- RepositoryProof.CheckShape: the schema, role, bare and alternates fields are not represented.
- RepositoryProof.CheckRepository: the same, and the replay of the bare repository snapshot is not part of this model.
- Snapshot.ValidateSnapshot: the schema field and the digest over the snapshot are not represented.
- Projection.ValidateInventory: the digest over the inventory is not represented, and the returned mappings are those of `OwnedProjection.Derive`.
- Projection.ValidateTreeProjection: the digest over the projection and the digest naming the extraction manifest are not represented.
- Projection.ValidateBootstrap: states its iff for stores whose trees have plain, distinct names, which every accepted store has; the digest over the projection is not represented.
- Extraction.CheckCrossBinding: the digests that bind one artifact to another are represented by equality of the values they stand for.
- Extraction.ValidateHistoryMap: the commit-map records, the source refs beside them and the claimed mapping count are not represented.
- Extraction.CertifyExtraction: the same, and the claims about root counts and digests.
- ManifestChain.CheckGitBindings: the report of history overrides in the repository is not represented.
- ManifestChain.Validate: schema, fragments and checks on single artifacts enter as given findings.
- OwnedProjection.MatchRule: says whether violations are added, not one message for each path.
- OwnedProjection.Derive: on rejection only that something was reported is stated, not which mappings were collected.
- RepositoryProof.ProducedProofAccepted: the bare repository snapshot that goes with the records is not represented.
- ManifestChain.ChainInvariant: takes Git's ancestry test to be transitive, and reflexive on the commits that the repository has, since the repository is a given value.
- MetricShards.FinishGroup: the comparison with the last-known-good cohort is not part of this model.
- MetricShards.CombineMetricShards: leaves out the matrix rule for unsupported suffixes, font evidence and the last-known-good cohort, and takes every measured process to have at least one sample, which the checks on single artifacts, not modelled here, establish.
- Overlay.Checkout.OverlayPaths: directories without files, file times and links are not represented; paths compare byte by byte, so a case-insensitive file system is not modelled.
- CheckoutProof.VerifyCheckout: the directory walk is a given list of entries, with everything below the top-level `.git` directory skipped.
- OrderStatistics.NearestRankGate: percentiles are exact rationals; the binary rounding of a float product is not modelled.
- SchemeIndex.Run: splitting files into lines, TOML and JSON parsing and the escaping of names in the generated Rust text are not modelled.
- RustMask.MaskProperties: does not claim that every Rust literal is recognised (`RustMask.MaskedPosition` and `RustMask.CharacterMasked` say what is), nor that masking twice equals masking once.
- RustLayout.MaskCfgTestModules: the matches of the regular expression are given.
- RustTokens.Tokens: the Unicode character classes are parameters; converting CRLF and hashing the bodies are not modelled.
- LocalRuntime.Host.Apply: a write that fails after part of its bytes went out counts as not committed; what the terminal runtime computes is a parameter, and an answered clipboard query is recorded by its text, not by the escape sequence that carries it.
- ScpOperands.ScpParse.Infer: the option tables of the command line and the direct-host form of the command are not modelled; paths are the strings they were given as.
- Benchmark timers, process sampling, packaging, the user interface and the terminal emulator itself.
