# Tessra's replicated log and its data structures, in Dafny

Tessra keeps a repository's state as a log of signed operations replicated
between machines. This project models the parts that have to be right for that
to work, and proves what they are for:

- **The persistent trie** (`Keys`, `Values`, `KeyRules`, `Trie`, `TrieMerge`,
  `TrieHistory`, `Bitmaps`, `TrieNodes`, `TrieStore`). Subtrees are values in `Trie`; `TrieStore`
  holds bitmap-packed nodes in a content-addressed map, and each of its methods is
  proved against the operation on values. So the theorems about values (merging is
  pointwise, equal contents have equal roots) are theorems about root IDs.
- **Views, the operation DAG, verification and undo** (`Views`, `ViewState`,
  `ViewLaws`, `MergeRules`, `EffectRules`, `World`, `Capabilities`, `Legality`,
  `Rulebook`, `History`, `ForkLaws`, `Safety`, `Acceptance`, `AcceptedOps`,
  `LogTheorems`, `Convergence`, `RepeatedOps`, `LogTables`, `OpLog`, `Undo`,
  `UndoLog`, `UndoRules`). A history
  is the sequence of accepted ops; ancestors, latest common ancestors, merged views
  and each op's own view are functions of it. The class `OpLog` has the fields of
  the log and is proved against those functions. Theorems quantify over every run
  of attempts, whatever became of each attempt.
- **Paths, globs and trees** (`Paths`, `Globs`, `GlobRules`, `Containment`, `Order`,
  `Trees`, `TreeDiff`, `TreeObjects`, `FlatMerge`).
- **Separate algorithms**: partitioning work (`UnionFind`, `Balance`, `Partition`,
  `WorkGroups`), standards and their predicate grammar (`Predicates`,
  `PredicateRules`, `PrintRules`, `PredicateRoundTrip`, `PredicateCoding`,
  `Standards`, `StandardRules`, `ConditionRules`, `Evaluation`, `StandardLaws`), alias
  reconciliation (`Aliases`) and identity across edits (`SiblingMatch`, `Likeness`,
  `Identity`).

The main operations are modelled twice: once as the code computes it, by functions and
by methods with the code's loops, and once as rules stated on their own: what a key
holds after a merge (`KeyRules`, `MergeRules`), what an effect does to a view
(`EffectRules`), which view a fork merges to (`ForkLaws`), what an op must keep to be
taken (`Rulebook`, `AcceptedOps`), when a condition is met and which clauses are
listed (`StandardRules`, `ConditionRules`, `Evaluation`), what a text reads as and a
predicate prints as (`PredicateRules`, `PrintRules`), what a pattern matches
(`GlobRules`). Lemmas whose names end in `Exactly` state that the two agree, both
ways, on every input; where rules bind a result instead, lemmas ending in `Follows`
and `Decided` state that it keeps them and that no other result does.

What the model takes as given: hashes are injective functions from contents to
IDs, and IDs are numbers compared as big-endian values; signatures are an abstract
predicate; random IDs come from a fresh supply; the objects an op names are looked
up in a finite map. A trie root inside a view is written as the map it names, which
`TrieStore.RootIdNamesContents` justifies; sorted duplicate-free vectors of owners
and roots are written as sets, and an absent pause list as the empty one.

Places where the code does less than its text or tests suggest are kept as the
code has them, with the exact condition:

- A merge of views is not symmetric for lines created on both sides or pauses that
  differ (`ViewLaws.MergeSymmetric`).
- An op without an idempotency key can be taken twice, and the heads go wrong exactly
  when it comes back after others have built on it (`RepeatedOps.TakenAgain`,
  `RepeatedOps.RepeatsSpoilHeads`).
- Glob containment is right about a pair of patterns exactly when it is safe
  (`Containment.ContainedExactly`). It is wrong about a slash-free child that can turn
  up below a directory the parent cannot begin with (`Containment.NameEscapes`), and
  about a `**` cut inside a segment when the child leaves that segment
  (`Containment.CutEscapes`). Attenuation along a chain asks for safe patterns link by
  link; any pattern handed on unchanged, and any normal one under `**`, is safe.
- Undo does not take back a claim written over another (`Undo.UndoInverts`,
  `Undo.ClaimOverClaimNotRestored`), and brings a resumed pause back with another
  author and op (`Undo.UndoPauses`).
- The undo of an op that moved a revision or a principal on to its next version can be
  built, but no log accepts it: legality asks the former version to name the later one
  as its predecessor (`UndoRules.MovesAreKept`). Exactly which undos are accepted is
  `UndoRules.UndoTaken`.
- Of an agent with several judges the first to say yes decides which model counts, so
  asking for distinct models depends on the order of citations
  (`StandardLaws.JudgedExactly`).
- A path that begins with a slash does not survive a tree (`Trees.RoundTrip`); a
  directory replaced by a file is reported as one path (`TreeDiff.DiffsAgree`); when
  both sides add a path, the conflict has two positive terms and no negative one
  (`FlatMerge.ConflictBalance`).

## Model

| member | source | states |
|---|---|---|
| TrieNodes.UnpackInjective | crates/tessra-core/src/trie.rs:150-167 | a packed node is determined by what its sixteen slots hold, so one node has one encoding |
| TrieNodes.TrieNode.SlotIndex | crates/tessra-core/src/trie.rs:170-176 | counting the bits below a nibble finds the position of its slot, and nothing when its bit is clear |
| TrieNodes.TrieNode.SetSlot | crates/tessra-core/src/trie.rs:182-197 | replacing, adding or removing a slot in place changes that one nibble and keeps bitmap and vector in step |
| Keys.NibbleOrderIsKeyOrder | crates/tessra-core/src/trie.rs:200-207 | of two keys that first differ at a nibble, the one with the lower nibble is the lower key |
| Trie.InsertLookup | crates/tessra-core/src/trie.rs:285-342 | an insertion changes what its key holds and what no other key holds |
| Trie.InsertCanon | crates/tessra-core/src/trie.rs:285-342 | an insertion keeps the canonical form, splitting a leaf as deep as two keys share nibbles |
| Trie.RemoveLookup | crates/tessra-core/src/trie.rs:360-381 | a removal empties its key and changes no other, through the collapse of nodes left with one leaf |
| Trie.RemoveCanon | crates/tessra-core/src/trie.rs:360-393 | a removal keeps the canonical form |
| Trie.RootUnique | crates/tessra-core/src/trie.rs:383-393 | two canonical tries in which every key holds the same are one trie |
| TrieMerge.MergePointwise | crates/tessra-core/src/trie.rs:417-525 | whatever subtrees were taken whole, a key of a merge depends only on what it holds in base, a and b, as it would in a map |
| TrieMerge.KeysFollow | crates/tessra-core/src/trie.rs:417-525 | every key of a merge follows the rules: under the pointer policy a key of the base that either side removed is absent; under the set policy it is absent when the other side left it, and what a side added is present; two different changes list exactly the IDs of both, ascending |
| KeyRules.ValueRuled | crates/tessra-core/src/trie.rs:480-500 | the same of one key, whatever base, a and b hold |
| KeyRules.KeyDecided | crates/tessra-core/src/trie.rs:480-500 | no two results for a key follow those rules |
| TrieMerge.MergeCanon | crates/tessra-core/src/trie.rs:466-525 | a merge of canonical tries is canonical |
| TrieHistory.EvalRefinesContents | crates/tessra-core/src/trie.rs:279-434 | a trie reached by any mix of insertions, removals and merges holds what the same steps on maps give |
| TrieHistory.HistoryIndependence | crates/tessra-core/src/trie.rs:279-434 | two such histories end in one trie exactly when they end in the same contents |
| TrieHistory.MergeSidesCommute | crates/tessra-core/src/trie.rs:417-434 | swapping the sides of a merge gives the same root |
| TrieHistory.Merge3Follows | crates/tessra-core/src/trie.rs:417-434 | the rules for every key of a merged root |
| TrieHistory.RemoveUndoesInsert | crates/tessra-core/src/trie.rs:279-381 | removing a key just inserted restores the root exactly when the key was not there before |
| TrieHistory.WalkSound | crates/tessra-core/src/trie.rs:395-410 | entries lists every key with what it holds, once, in strictly ascending key order |
| TrieStore.RootIdNamesContents | crates/tessra-core/src/trie.rs:247-257 | two stored roots have one ID exactly when every key holds the same under both |
| TrieStore.RepGrows | crates/tessra-core/src/trie.rs:251-257 | storing more never changes what a stored root stands for |
| TrieStore.Store.Get | crates/tessra-core/src/trie.rs:259-277 | the loop down the nodes finds what the key holds |
| TrieStore.Store.Insert | crates/tessra-core/src/trie.rs:279-317 | returns a root that stands for the insertion, all else stored staying as it was |
| TrieStore.Store.PairNode | crates/tessra-core/src/trie.rs:319-343 | stores the chain of nodes two keys share down to where they part |
| TrieStore.Store.Remove | crates/tessra-core/src/trie.rs:345-381 | returns a root that stands for the removal; the root stays a node even when empty |
| TrieStore.Store.Normalize | crates/tessra-core/src/trie.rs:383-393 | an empty node is nothing, a node of one leaf is the leaf, any other is saved |
| TrieStore.Store.MergeSub | crates/tessra-core/src/trie.rs:466-525 | the recursion that prunes on equal IDs returns what merging the subtrees as values gives, in which every key follows the rules, and ends because nibbles run out |
| TrieStore.Store.Merge3 | crates/tessra-core/src/trie.rs:417-434 | returns a root that stands for the merge of the three tries, in which every key follows the rules: no pointer that either side removed comes back |
| TrieStore.MergedSidesShareId | crates/tessra-core/src/trie.rs:417-434 | the roots returned for a merge and for the same merge with its sides swapped have one ID |
| TrieStore.Store.Entries | crates/tessra-core/src/trie.rs:395-410 | the walk that pushes into an out vector lists exactly the entries |
| ViewState.ApplyEffects | crates/tessra-oplog/src/view.rs:178-293 | the loop gives the one view the effects make one after the other, or fails at the first head on an unknown line without an ID |
| EffectRules.DoesExactly | crates/tessra-oplog/src/view.rs:178-293 | an effect gives a view exactly when only the key, line, member or pause it names differs, as its kind says: a head keeps its line's ID and coordinator, a pause is added last for the first owner |
| EffectRules.AppliesExactly | crates/tessra-oplog/src/view.rs:178-293 | effects give a view exactly when there are views in between, each made from the one before |
| ViewState.MergeViews | crates/tessra-oplog/src/view.rs:296-394 | the loops over lines, owners, roots, deployments and pauses build the merged view, field by field as the rules of merging say |
| MergeRules.MergeFollows | crates/tessra-oplog/src/view.rs:296-452 | pointers and claims lose a key either side removed; proposals and capabilities keep one the other side changed; revocations and tombstones keep all; a base owner or root stays exactly when both sides kept it, any other is there exactly when a side added it; a head, coordinator or deployment changed on one side is that side's, of two the lower, of two heads the IDs of both; pauses are the earliest of each scope |
| MergeRules.MergeDecided | crates/tessra-oplog/src/view.rs:296-452 | no two views follow those rules |
| ViewState.UnionOf | crates/tessra-oplog/src/view.rs:396-409 | revocations and tombstones merge to every member of any of the three |
| ViewState.MergeMembers | crates/tessra-oplog/src/view.rs:438-452 | a member of the base stays exactly when both sides kept it, and any other is there exactly when a side added it |
| ViewLaws.MergeSymmetric | crates/tessra-oplog/src/view.rs:296-452 | merging views is symmetric exactly when no line created on both sides and no pause of one scope differ |
| ViewLaws.MergeUnchangedSide | crates/tessra-oplog/src/view.rs:296-452 | merging with an unchanged side gives the other side back exactly when that side kept the base's revocations, tombstones, lines and pauses |
| Capabilities.CheckChain | crates/tessra-oplog/src/verify.rs:240-319 | the loop accepts exactly the chains that reach an owner-issued capability within the limit, each link checked at the view |
| Capabilities.ChainLinked | crates/tessra-oplog/src/verify.rs:240-319 | in an accepted chain each link is delegated by the one above it, and the last is issued by an owner |
| Capabilities.WritesAttenuate | crates/tessra-oplog/src/verify.rs:240-356 | a path the first capability of a chain may write, each capability above it may write, as far up as each pattern handed on is safely contained in one of the holder's |
| Capabilities.ReadsAttenuate | crates/tessra-oplog/src/verify.rs:240-356 | the same of the paths it may read, whatever the write patterns are |
| Capabilities.LimitsAttenuate | crates/tessra-oplog/src/verify.rs:240-356 | verbs, roots, stages, memory scopes, nodes, lines, targets and hard limits of the first capability are within those of every one above it |
| Capabilities.StepExactly | crates/tessra-oplog/src/verify.rs:321-356 | one pattern handed on under one adds no path exactly when the pair is safe |
| Rulebook.NarrowsExactly | crates/tessra-oplog/src/verify.rs:321-356 | the containment check passes exactly when no verb is added, every list and number the holder limits is limited at least as far, and every pattern is one of the holder's, begins with what one says before its trailing `**`, or is a name one matches |
| Rulebook.DelegatedExactly | crates/tessra-oplog/src/verify.rs:240-319 | the chain check passes exactly when there is a sequence of stored, issued capabilities within the limit, each handed on by the subject of the next and no wider, the last issued by an owner |
| Rulebook.MayWriteExactly | crates/tessra-oplog/src/verify.rs:114-147 | a non-owner may write exactly when its capability is active at both views, made out to it, delegated, and grants the op's kind and every effect |
| Containment.ContainedSound | crates/tessra-oplog/src/glob.rs:8-64 | for every safe pair, containment means every path the child matches the parent matches: slash-free pairs, a slash-free name under a parent that begins with anything, a child with directories under a parent whose trailing `**` is whole, and what stays within the segment of a cut one |
| Containment.ContainedExactly | crates/tessra-oplog/src/glob.rs:51-64 | for patterns without stray slashes a contained child is included exactly when the pair is safe; under a cut parent, where the text before the cut has no `**` among its directories or, with none, no wildcard |
| Globs.MatchSplits | crates/tessra-oplog/src/glob.rs:19-31 | a match of two patterns end to end splits the path between them |
| GlobRules.CharsExactly | crates/tessra-oplog/src/glob.rs:40-47 | a segment matches a text exactly when the text falls into one piece for each of its characters: any for `*`, one character for `?`, itself otherwise |
| GlobRules.SegmentsExactly | crates/tessra-oplog/src/glob.rs:19-31 | segments match components exactly when these fall into one run for each segment: any for `**`, otherwise one component that the segment matches |
| GlobRules.MatchesExactly | crates/tessra-oplog/src/glob.rs:8-17 | past leading slashes, a slash-free pattern matches exactly the paths whose last component it takes, and every path if it is `**`; any other those whose non-empty components its non-empty segments take |
| Containment.NameEscapes | crates/tessra-oplog/src/glob.rs:51-64 | every literal name is contained in the pattern for what lies below that name, which misses the name below any other directory |
| Containment.SlashFreeChildEscapes | crates/tessra-oplog/src/glob.rs:51-64 | a slash-free child is contained in a parent that misses a path it matches |
| Containment.SplitStarsEscape | crates/tessra-oplog/src/glob.rs:51-64 | a parent ending in `**` inside a segment contains a child whose path it misses |
| History.LcaExists | crates/tessra-oplog/src/dag.rs:98-127 | every non-empty set of accepted ops has a latest common ancestor: common to all and a proper ancestor of no other common one |
| ForkLaws.BaseExists | crates/tessra-oplog/src/dag.rs:98-127 | some op is above all of the given ones, above no other that is, and the lowest ID of such |
| ForkLaws.MeetIsBase | crates/tessra-oplog/src/dag.rs:98-127 | an op that every common ancestor lies above is that one |
| History.AncTransitive | crates/tessra-oplog/src/dag.rs:84-96 | ancestors of ancestors are ancestors |
| ForkLaws.AncestorsExactly | crates/tessra-oplog/src/dag.rs:84-96 | an op's ancestors are itself and exactly what a way up through parents leads to |
| History.AncAcyclic | crates/tessra-oplog/src/dag.rs:84-96 | no two ops are ancestors of each other |
| History.SingleRoot | crates/tessra-oplog/src/verify.rs:50-57 | the first op is an ancestor of every op |
| History.OnlyRoot | crates/tessra-oplog/src/verify.rs:166-182 | exactly the first op of a log has no parents |
| Safety.RevokedExactly | crates/tessra-oplog/src/view.rs:238-240 | an op's view has revoked exactly the principals it or an ancestor revokes, through any forks and merges |
| Safety.MergedRevokes | crates/tessra-oplog/src/dag.rs:130-156 | folding views over their latest common ancestors loses no revocation and invents none |
| Safety.MergedSeq | crates/tessra-oplog/src/view.rs:412-436 | a merged view's line number is the greatest of the merged ops' |
| Safety.SeqRisesStrictly | crates/tessra-oplog/src/verify.rs:782-827 | an op that advances a line puts its number strictly above its value in every proper ancestor's view |
| Acceptance.AcceptKeepsInv | crates/tessra-oplog/src/dag.rs:170-194 | any attempt, accepted or refused, keeps the history replayable, each op verified, heads above every op |
| Acceptance.RunKeepsInv | crates/tessra-oplog/src/dag.rs:170-194 | so after every run of attempts |
| Acceptance.RunGrows | crates/tessra-oplog/src/dag.rs:170-194 | later attempts only append to the history |
| LogTheorems.CurrentRevokedExactly | crates/tessra-oplog/src/dag.rs:158-161 | the current view has revoked exactly what was ever revoked, on any branch |
| LogTheorems.RevocationIsPermanent | crates/tessra-oplog/src/verify.rs:85-92 | once a revocation is in the log, no later run of attempts adds an op by that principal |
| LogTheorems.LandedAtSeq | crates/tessra-oplog/src/view.rs:195-219 | an accepted op's own view shows the number its head effect carries |
| LogTheorems.SameSeqUnrelated | crates/tessra-oplog/src/verify.rs:782-827 | two ops that land one line at one number are never ancestor and descendant |
| LogTheorems.CurrentSeqIsGreatest | crates/tessra-oplog/src/dag.rs:158-161 | no op's view has a line ahead of the current view |
| LogTheorems.TakingKeepsHeadsMaximal | crates/tessra-oplog/src/dag.rs:170-194 | taking an op keeps the heads exactly the maximal ops if and only if the op is new or a head already |
| LogTheorems.HeadsAreMaximal | crates/tessra-oplog/src/dag.rs:170-194 | when every op but an init has an idempotency key, the heads are exactly the ops without descendants, after every run |
| RepeatedOps.TakenAgain | crates/tessra-oplog/src/dag.rs:170-194 | an op already in the log is taken again exactly when it is no init, has no idempotency key, and its author may still act at the current view |
| RepeatedOps.RepeatsSpoilHeads | crates/tessra-oplog/src/dag.rs:170-194 | an op of the log offered again makes the heads differ from the maximal ops exactly when it is taken again and is no longer a head |
| LogTheorems.WritesStayInScope | crates/tessra-oplog/src/verify.rs:358-528 | every path a non-owner's accepted op proposes or lands is admitted by its own capability, which an owner-issued chain backs, and by each one above it as far up as the patterns handed on are safe |
| Legality.LandedRevisions | crates/tessra-oplog/src/verify.rs:966-1008 | the queue loop from the line heads ends with exactly the revisions some number of parent links below a head |
| Legality.LandedIsLeast | crates/tessra-oplog/src/verify.rs:966-1008 | the landed revisions are the least set that holds the heads and, with a revision, its parents |
| Rulebook.HistoryExactly | crates/tessra-oplog/src/verify.rs:966-1008 | a revision has landed exactly when a way down through parents leads to it from the head of a line or a side of a head in conflict |
| Convergence.Entry | crates/tessra-oplog/src/verify.rs:152-162 | in the finished log each op's recorded view is what replaying its whole ancestry from effects gives |
| Convergence.RunsConverge | crates/tessra-oplog/src/dag.rs:130-194 | two runs that end with the same ops, in whatever order, end with the same heads and current view |
| Convergence.HeadsReachAll | crates/tessra-oplog/src/dag.rs:36-53 | from the heads every op of the log is reached, and nothing else |
| OpLog.OpLog.Open | crates/tessra-oplog/src/dag.rs:36-53 | the walk from the heads rebuilds the same verified set, view table and idempotency table |
| OpLog.OpLog.Ancestors | crates/tessra-oplog/src/dag.rs:84-96 | the queue over parents ends with exactly the ancestors |
| OpLog.OpLog.FindLca | crates/tessra-oplog/src/dag.rs:98-127 | the loops over common ancestors find the latest one, the lowest ID among several |
| OpLog.OpLog.MergedView | crates/tessra-oplog/src/dag.rs:130-156 | the pairwise fold gives the view that merges the ops' views: the highest ID last, by the rules of merging, over the view of the base of all |
| ForkLaws.MergedExactly | crates/tessra-oplog/src/dag.rs:130-156 | one view merges the views of accepted ops in that way, and it is the merged view |
| ForkLaws.LastFollows | crates/tessra-oplog/src/dag.rs:139-152 | the last op's view is merged by the rules into what the others give, over the view of the base of all of them |
| ForkLaws.ForkFollows | crates/tessra-oplog/src/dag.rs:139-152 | at a fork, what one branch left as it was at the base of both has in the merged view what the other branch has, in pointers, claims, proposals and capabilities |
| ForkLaws.WithdrawnStays | crates/tessra-oplog/src/dag.rs:139-152 | so what one branch removed and the other left alone is gone |
| ForkLaws.DescendantWins | crates/tessra-oplog/src/dag.rs:139-152 | merging an op with an ancestor of it keeps the op's own pointers, claims, proposals and capabilities |
| OpLog.OpLog.Verify | crates/tessra-oplog/src/verify.rs:42-164 | the steps of verification pass exactly the acceptable ops, and return the view their effects make; otherwise the step that refused |
| Rulebook.HeadRuleExactly | crates/tessra-oplog/src/verify.rs:782-889 | a head effect is legal exactly when it gives a stored revision to a new line, by an owner, with an ID, no `from` and number 0, or to a known one, by its coordinator, from its present head, one number on, citing stored attestations and meeting its standard unless an owner imports history onto the head |
| Rulebook.PointRuleExactly | crates/tessra-oplog/src/verify.rs:622-781 | a point is legal exactly when its `from` is the present pointer and its object stored; a revision has the entity's ID, follows the current one and moves a landed one only in a restack; a hook runs as the author or is an owner's; a principal follows the current one under its key, or is new, a session signed by its agent or any other by an owner |
| Rulebook.LegalExactly | crates/tessra-oplog/src/verify.rs:611-940 | legality passes exactly the ops whose every effect keeps its rule; owner and coordinator effects are owners', tombstones occur in a redact, a claim names a stored claim object held by the author |
| AcceptedOps.VerifiedExactly | crates/tessra-oplog/src/verify.rs:42-164 | an op with parents is verified, with a view, exactly when its author is known and stands, it is signed, entitled and keeps every rule, and its effects make the view it names |
| AcceptedOps.RefusedExactly | crates/tessra-oplog/src/verify.rs:42-164 | and refused with the number of the first step whose rule fails |
| AcceptedOps.InitialExactly | crates/tessra-oplog/src/verify.rs:166-221 | the first op is verified exactly when the log is empty and it makes its author an owner and gives it a principal in its own name and key, signed by that key |
| AcceptedOps.AcceptableExactly | crates/tessra-oplog/src/verify.rs:42-164 | in a log, an op is verified exactly when its parents are in the log and it keeps the rules at the views that merge those of its parents and of the heads |
| OpLog.OpLog.TryAccept | crates/tessra-oplog/src/dag.rs:170-194 | returns the earlier op for a repeated key, stores an acceptable op and makes it a head instead of its parents, or changes nothing |
| AcceptedOps.TakenExactly | crates/tessra-oplog/src/dag.rs:170-194 | an op is taken exactly when its author used its key for none before and it is acceptable |
| AcceptedOps.AttemptedExactly | crates/tessra-oplog/src/dag.rs:170-194 | what an attempt returns and what it does to history and heads, in each of the three cases |
| AcceptedOps.EveryOpKept | crates/tessra-oplog/src/verify.rs:42-164 | after every run each op but the first kept every rule at the view that merges its parents' views, and its recorded view is the one its effects made there |
| AcceptedOps.FirstOpKept | crates/tessra-oplog/src/verify.rs:166-221 | and the recorded view of the first op is what its effects make of nothing |
| AcceptedOps.CoordinatorsLand | crates/tessra-oplog/src/verify.rs:782-889 | so every known line was only ever advanced by its coordinator, from its head, by one number, to a stored revision, and every line created by an owner |
| AcceptedOps.OwnersGovern | crates/tessra-oplog/src/verify.rs:893-901 | and owners, roots and coordinators were only ever changed by an owner of the view the op saw |
| Undo.UndoEffects | crates/tessra-oplog/src/build.rs:288-328 | the reverse loop takes every effect back, the last first, at the current view, or refuses for the last effect that cannot be |
| Undo.InverseExactly | crates/tessra-oplog/src/build.rs:288-328 | the inverse is exactly what takes each effect back, a point only while its target is current and to what it replaced, and a refusal is that of the last effect refused, with its reason |
| Undo.UndoAllowed | crates/tessra-oplog/src/build.rs:288-328 | undo is refused exactly for a kind never undone, a resolved conflict, or an entity that has moved on |
| Undo.OwnUndoAllowed | crates/tessra-oplog/src/build.rs:288-328 | on the op's own view undo is refused exactly for a resolved conflict or an entity pointed at two versions |
| Undo.UndoRestores | crates/tessra-oplog/src/build.rs:273-334 | an undo on the op's own view puts every place back, of a scope whether it is paused, if and only if the first effect at each place changed it |
| Undo.UndoPauses | crates/tessra-oplog/src/view.rs:247-266 | the pauses after such an undo: those of untouched scopes as they were, and of a scope resumed first one by the first owner carrying the undo's parent |
| Undo.UndoInverts | crates/tessra-oplog/src/build.rs:273-334 | unless a scope was resumed first, the view the op started from comes back exactly, under the same condition, pauses in their order |
| Undo.ClaimOverClaimNotRestored | crates/tessra-oplog/src/build.rs:313-313 | undoing a claim written over another leaves no claim, not the former one |
| Undo.UndoChangesOnlyTouched | crates/tessra-oplog/src/build.rs:273-334 | however much later, an undo writes back what the op's first effects found and leaves every other place and field |
| Undo.UndoPointsAreCurrent | crates/tessra-oplog/src/verify.rs:622-641 | the points an undo makes pass the check of their `from` at the current view |
| UndoLog.UndoAs | crates/tessra-oplog/src/build.rs:31-65 | the op built sits on the current heads, carries the effects that take the other's back and names the view they make there; another author's op is refused |
| UndoLog.UndoOfAccepted | crates/tessra-oplog/src/build.rs:273-334 | of any accepted op in any log: an undo built on it produces the view it saw, under that condition |
| UndoLog.UndoLater | crates/tessra-oplog/src/build.rs:273-334 | an undo built on any later heads produces the current view with only the op's places put back |
| UndoRules.UndoTaken | crates/tessra-oplog/src/verify.rs:611-742 | an undo built on the current heads is accepted exactly when its key is fresh, its signer may act, and each effect of the op may be taken back: versions named as predecessors, hooks one's own, claims still one's own |
| UndoRules.MovesAreKept | crates/tessra-oplog/src/verify.rs:660-690 | no log accepts an undo of an accepted op that moved a revision or a principal on from an earlier version |
| UndoLog.ReplayKinds | crates/tessra-oplog/src/view.rs:178-293 | every recorded view's entity map holds pointers only, and its sets membership only |
| Trees.BuildGets | crates/tessra-daemon/src/tree.rs:88-107 | the nested tree holds each leaf of the map at its path and no other |
| Trees.BuildInjective | crates/tessra-daemon/src/tree.rs:88-142 | two maps build one tree exactly when they are equal |
| Trees.FlattenGets | crates/tessra-daemon/src/tree.rs:60-84 | flattening lists every leaf of a tree at its path |
| Trees.RoundTrip | crates/tessra-daemon/src/tree.rs:40-142 | flattening what was built gives the map back if and only if no path begins with a slash |
| Order.LessExactly | crates/tessra-daemon/src/tree.rs:105-120 | names are ordered by their first difference, a prefix before what continues it |
| TreeObjects.DirIdNames | crates/tessra-daemon/src/tree.rs:109-140 | two directories, sharded or not, have one ID exactly when they are equal |
| TreeObjects.BuiltIdNames | crates/tessra-daemon/src/tree.rs:88-142 | equal maps build equal IDs and distinct maps distinct ones |
| TreeObjects.TreeStore.Build | crates/tessra-daemon/src/tree.rs:88-142 | stores the tree of the map, written out directory by directory, every directory above the threshold in shards |
| TreeObjects.StoredIsWritten | crates/tessra-daemon/src/tree.rs:88-142 | a stored tree is, directory by directory, an object listing its names in order, or above the threshold shards by hash slot that together list them, each entry a leaf or the ID of such a directory |
| TreeObjects.TreeStore.PutShards | crates/tessra-daemon/src/tree.rs:121-138 | filling buckets by name hash stores each shard sorted and lists them by slot |
| TreeObjects.TreeStore.Load | crates/tessra-daemon/src/tree.rs:46-58 | reading a directory back gives its entries in name order, gathered from its shards if it has any |
| TreeObjects.TreeStore.FlattenTree | crates/tessra-daemon/src/tree.rs:40-84 | the recursive walk over stored objects gives the flat map of the tree |
| TreeObjects.TreeStore.Rebuild | crates/tessra-daemon/src/tree.rs:40-142 | storing a map's tree and walking the objects gives the map back if and only if no path begins with a slash |
| TreeObjects.TreeStore.ChangedPaths | crates/tessra-oplog/src/verify.rs:529-608 | the walk that never opens equal IDs reports each path once, exactly those whose leaves differ and that have no leaf above them |
| TreeDiff.ChangedPathsExact | crates/tessra-oplog/src/verify.rs:557-608 | the same of the walk over trees as values, for every path |
| TreeDiff.DiffsAgree | crates/tessra-daemon/src/hooks.rs:87-114 | the pruned walk and the flat comparison report the same paths if and only if no leaf on one side is a directory on the other |
| FlatMerge.Merge3 | crates/tessra-daemon/src/tree.rs:145-199 | each path gets the three-way merge of its leaves, and exactly the paths both sides changed apart are listed as conflicts, sorted |
| FlatMerge.PathExactly | crates/tessra-daemon/src/tree.rs:155-189 | a path holds the one side's change, or a conflict that lists the base against both sides in turn, an empty file standing for a side that removed it; nothing else follows these rules |
| FlatMerge.ConflictBalance | crates/tessra-daemon/src/tree.rs:155-189 | a conflict's positive terms outnumber the negative ones by exactly one if and only if the base has the path |
| FlatMerge.MergeSwaps | crates/tessra-daemon/src/tree.rs:145-199 | swapping the sides gives the same map exactly when no conflict records two different terms |
| FlatMerge.MergeUnchanged | crates/tessra-daemon/src/tree.rs:145-199 | merging with an unchanged side gives the other side |
| UnionFind.Find | crates/tessra-daemon/src/swarm.rs:109-121 | path compression ends, returns the root, and changes no item's root |
| UnionFind.LinkTracks | crates/tessra-daemon/src/swarm.rs:122-131 | linking the roots of an edge's ends makes items share a root exactly when the edges so far join them |
| UnionFind.JoinedTransitive | crates/tessra-daemon/src/swarm.rs:107-131 | being joined by edges is transitive |
| UnionFind.JoinedLeast | crates/tessra-daemon/src/swarm.rs:107-131 | and the least such relation: it leaves no set that no edge crosses |
| Partition.DependencyJoins | crates/tessra-daemon/src/swarm.rs:122-131 | a dependency between two candidates joins them, whichever depends on the other |
| Partition.EdgesExactly | crates/tessra-daemon/src/swarm.rs:122-131 | the edges are exactly those from a unit to the last unit with an ID it depends on |
| Partition.Join | crates/tessra-daemon/src/swarm.rs:102-131 | the loops over dependencies leave a forest whose roots tell exactly which units the dependencies join |
| Partition.Components | crates/tessra-daemon/src/swarm.rs:132-137 | grouping by root gives the connected components, each unit in exactly one |
| Partition.Partition | crates/tessra-daemon/src/swarm.rs:101-159 | every candidate in exactly one of min(agents, components) groups (at least one agent), components whole, each handed to the first of the lightest groups, largest first and of two as large the one whose first unit comes first by path and name; sizes within the largest component, none above 4/3 - 1/(3m) of any other such grouping |
| WorkGroups.PartitionWork | crates/tessra-daemon/src/swarm.rs:94-191 | the groups list exactly the units under the paths that stand alone, each group's in order of path, name and ID with its distinct paths in order and the count of outside units depending on it, over such a partition |
| Balance.LoadsClose | crates/tessra-daemon/src/swarm.rs:146-155 | giving each item to the lightest group never parts two groups by more than the largest item |
| Balance.GreedyNearBest | crates/tessra-daemon/src/swarm.rs:138-155 | largest-first greedy is within 4/3 - 1/(3m) of every assignment of the items to m groups |
| Predicates.SplitTop | crates/tessra-oplog/src/standard.rs:701-726 | the loop splits at exactly the commas outside parentheses |
| PredicateRules.SplitExactly | crates/tessra-oplog/src/standard.rs:701-726 | the parts of a text are exactly its pieces between the commas outside parentheses, trimmed, with nothing for a blank end |
| PredicateRules.IntExactly | crates/tessra-oplog/src/standard.rs:728-739 | a text reads as an integer exactly when it is an optional sign and decimal digits of a 64-bit value |
| PredicateRules.PartsExactly | crates/tessra-oplog/src/standard.rs:660-699 | a bare part names only as the first, and each key has the value last given for it |
| PredicateRules.ReadExactly | crates/tessra-oplog/src/standard.rs:643-699 | a text reads as a predicate exactly when it is its kind and its parts in parentheses, recursively for `all`, `any` and `not`; so reading is decided for every text |
| PrintRules.PrintExactly | crates/tessra-oplog/src/standard.rs:574-637 | a predicate prints as exactly its kind and, in parentheses with commas, its name and its arguments in key order, `preds` standing for the predicates; integers in decimal without a leading zero, arrays in brackets with spaces |
| PredicateRoundTrip.PredicateRoundTrips | crates/tessra-oplog/src/standard.rs:574-699 | printing a predicate free of delimiters in its names and reading the text gives it back, however nested |
| PredicateCoding.CodingRoundTrips | crates/tessra-oplog/src/standard.rs:136-142 | a predicate kept among the arguments of another, as a map of its kind, name and arguments, is read back as it was, however nested |
| PredicateRoundTrip.IntTextParses | crates/tessra-oplog/src/standard.rs:624-637 | every 64-bit integer prints as text that reads as itself |
| PredicateRoundTrip.SplitCommas | crates/tessra-oplog/src/standard.rs:701-726 | splitting parts joined by commas gives the parts, whatever they nest |
| Evaluation.Evaluate | crates/tessra-oplog/src/standard.rs:165-278 | the loops list, in order and once, exactly the clauses that would be listed on their own: those of each standard, those of each risk section at or above its level, and a section itself when no level is known |
| StandardRules.ClauseListed | crates/tessra-oplog/src/standard.rs:524-553 | `require p` is listed when p is not met, `forbid p` when it is, any other sort always; with `unless q` exactly when without it and q is not met |
| StandardRules.CombinedMet | crates/tessra-oplog/src/standard.rs:941-962 | `all` is met exactly when every part is, `any` when some part is, `not` when its first part is not |
| ConditionRules.ApprovedExactly | crates/tessra-oplog/src/standard.rs:963-999 | `approved` is met exactly when a human's truthful approval of the revision is cited, not through a runner if so asked |
| ConditionRules.AttestExactly | crates/tessra-oplog/src/standard.rs:849-940 | `attest` is met exactly when a trusted signer, or the author where allowed, speaks for the revision or for each changed unit in scope |
| ConditionRules.StructuralExactly | crates/tessra-oplog/src/standard.rs:741-848 | each structural condition in terms of the units changed or deleted since the parent |
| ConditionRules.JudgeExactly | crates/tessra-oplog/src/standard.rs:1000-1094 | `judge` is met exactly when no confident judge refuses and enough agents, with enough models if asked, approve |
| ConditionRules.ObserveExactly | crates/tessra-oplog/src/standard.rs:1095-1147 | `observe` is met exactly when the latest trusted measurement of the signal is within the bounds given |
| ConditionRules.OtherExactly | crates/tessra-oplog/src/standard.rs:774-848 | a structural condition without a name, or a condition of any other kind, is never met |
| Evaluation.LevelExactly | crates/tessra-oplog/src/standard.rs:405-462 | the risk level is that of the latest trusted risk attestation on the revision, of several at one time the first cited |
| Standards.TallyVerdicts | crates/tessra-oplog/src/standard.rs:1000-1052 | the loop counts each agent's judges once and notes any refusal |
| StandardLaws.OnlyTrustedCount | crates/tessra-oplog/src/standard.rs:360-402 | two citations with the same trusted attestations leave the same clauses unmet, under any nesting, where no judge or own attestation is read |
| StandardLaws.UntrustedDropped | crates/tessra-oplog/src/standard.rs:165-278 | dropping every attestation from an untrusted signer changes nothing |
| StandardLaws.MoreNeverUnmeets | crates/tessra-oplog/src/standard.rs:524-553 | citing more never unmeets a clause when requirements can only be helped and prohibitions only avoided by it, negation included, at the same risk level |
| StandardLaws.JudgedExactly | crates/tessra-oplog/src/standard.rs:1000-1093 | a judge clause holds exactly when no confident judge refuses, enough separate agents' judges approve and, where distinct models are asked for, each agent's first approval in citation order gives enough of them |
| Aliases.Reconcile | crates/tessra-daemon/src/semantic.rs:319-380 | pairs the units both sides introduced, by kind, name and parent or by kind and body, each with the first free one, and renumbers the merged units in place |
| Aliases.PairsFollow | crates/tessra-daemon/src/semantic.rs:325-350 | of what the other side introduced each unit in turn is paired with the first unit of the same name or else of the same body that no earlier one took, and with none only if there is none |
| Aliases.ReconcileFollows | crates/tessra-daemon/src/semantic.rs:319-380 | and each merged unit is as before but for its ID, parent and dependencies, in which the higher ID of a pair is the lower |
| Aliases.IdsStayDistinct | crates/tessra-daemon/src/semantic.rs:319-380 | the merged units' IDs stay pairwise distinct |
| Aliases.BaseUnitsKeepIds | crates/tessra-daemon/src/semantic.rs:319-380 | a unit of the base keeps its ID, and no unit changes but in IDs |
| Aliases.ReferencesStay | crates/tessra-daemon/src/semantic.rs:358-378 | parents and dependencies that named present units still name present units |
| Aliases.AliasTableSound | crates/tessra-daemon/src/semantic.rs:319-380 | every alias is an ID no longer in use, and leads to a lower present one that is itself no alias |
| Aliases.LowerSurvives | crates/tessra-daemon/src/semantic.rs:350-356 | of each pair the lower ID survives and the higher leads to it |
| Aliases.Canonical | crates/tessra-daemon/src/semantic.rs:194-212 | rewrites every unit's ID and parent through the aliases, in place |
| Aliases.ResolveExactly | crates/tessra-daemon/src/semantic.rs:194-212 | following an ID through the table ends exactly where steps from alias to alias lead within the limit |
| Aliases.PairsLineUp | crates/tessra-daemon/src/semantic.rs:179-212 | followed through the table both IDs of a pair lead to the survivor and every ID in use to itself |
| SiblingMatch.MatchGroup | crates/tessra-semantic/src/matching.rs:127-161 | no previous unit is taken twice; the first units of a body take its previous ones in order, as many as both sides have; each other unit in turn has the first one free between those placed around it and none only if nothing there is free; an unchanged group matches itself |
| Likeness.Jaccard | crates/tessra-semantic/src/matching.rs:103-121 | the two-index walk over sorted lists gives the shared elements over all elements |
| Likeness.OverlapBounds | crates/tessra-semantic/src/matching.rs:103-121 | the overlap is between none and one, does not depend on the side, and is one only for equal sets |
| Identity.AssignIds | crates/tessra-semantic/src/matching.rs:163-355 | IDs are pairwise distinct, carried only between units of one kind and otherwise fresh; the four passes follow one another, each by its rules; a named unit is new only if it resembles no free one of its kind and parent enough; parents are given by ID; a file against itself comes out as it was |
| Identity.ByName | crates/tessra-semantic/src/matching.rs:169-217 | each group of one parent, kind and name is matched as siblings are, with the previous units that no earlier group took, and no unit outside a group; an unchanged file's named units match themselves |
| Identity.ByBodies | crates/tessra-semantic/src/matching.rs:218-243 | a unit left over takes the first previous unit of its parent, kind and body that is free at its turn, and none only if there is none; earlier matches stay, and the rest of an unchanged file matches itself |
| Identity.ByPlace | crates/tessra-semantic/src/matching.rs:244-281 | a nameless unit left over takes the first free nameless one of its kind and parent between the matched units around it and past the last one placed, and none only if there is none |
| Identity.ByLikeness | crates/tessra-semantic/src/matching.rs:282-334 | a named unit left over takes the last of the free candidates it resembles most, if that is enough, and none only if it resembles none enough |

## Left out

- Hashing, signatures, encoding: only injectivity and an abstract predicate remain; encoded bytes are not modelled.
- Missing objects and malformed stored data: reads of tries, trees and ops succeed; an object missing in steps 6 and 7, or a principal in conflict there, is a refusal at that step; key lengths in one trie are one positive number, as the callers pass.
- Clocks, sessions, credentials, anomaly scores, risk points, files, network, the git bridge, the command line.
- OpLog.OpLog.Verify: whether a landing's citations meet its line's standard, and which paths a revision changed, are given to the log as functions; `Standards` and `TreeDiff` model what they compute.
- Legality.LandedRevisions: the process-wide cache by line heads; objects a store gains later are in the map from the start.
- Reads in capability containment beyond read paths: the code does not compare read roots or memory scopes, and neither does the model.
- Legality does not ask a landing's parents to include the old head, so nothing is claimed of the set of landed revisions.
- Containment.ContainedExactly: under a parent cut inside a segment, with `**` among its directories or wildcards before the cut, only the direction of `Containment.ContainedSound` is proved; the other is inclusion between arbitrary patterns.
- ViewState.MergeViews: the order in which ordered maps are visited is not fixed, as no result depends on it.
- ViewState.ApplyEffects: an empty pause list and an absent one are one value, so the difference in a view's encoding is not kept.
- Undo.UndoRestores: of a scope only whether it is paused is compared; `Undo.UndoPauses` says what the pauses are.
- UndoLog.UndoAs: the argument naming the undone op, and the signature, which is an abstract predicate of the finished op.
- UndoRules.MovesAreKept: that no two versions precede each other is taken as given, as neither content can hold the hash of the other.
- Trees.RoundTrip: maps in which one path is a directory of another, and directory leaves, are outside it, as no file system has them.
- TreeObjects.TreeStore.Build: the tree under construction is a value, not a mutable nested structure.
- Partition.Partition: groups are indices into the candidates; `WorkGroups.PartitionWork` lists their units. Among components of one size whose first units share path and name the code leaves the order to its hash map, and the model fixes one.
- Evaluation.Evaluate: which clause fails, not the reason text; loading the chain, the indexes and the principals is given.
- Predicates: arguments printed in debug form are given by a function.
- PredicateCoding.CodingRoundTrips: a predicate encoded as an array of its fields in order, which decoding also takes, is not modelled.
- PredicateRoundTrip.PredicateRoundTrips: text that carries delimiters, or reads as a boolean or an integer, is outside it.
- Identity.AssignIds: spans, references and extraction are not modelled; likeness is over the reals, without rounding, and shingles come sorted.
- SiblingMatch.MatchGroup: bodies stand for the units of the group.
- Aliases.Reconcile: spans and set-likeness of a unit are not carried; its guarantees take each side to hold an ID once, as an index does.
- Node-level file merge, rename application, restacking, planning and delivery.
