# Verified model of malt-core

This project models the authenticated data structures of malt-core in Dafny and
proves what they promise. It covers:

- the authenticated tree (`auth/tree`): a persistent radix tree over committed
  vectors, with a Map layout (a sparse prefix trie over 256-bit keys that collapses
  subtrees holding one leaf) and a List layout (a dense, count-defined tree whose
  root has a metadata slot);
- the retained writer (`sdk/authentication`): an immutable compressed binary trie of
  bindings kept in step with the tree;
- the object graph (`sdk/object`): the recursive, all-or-nothing commit and the delta
  between two committed graphs;
- the KZG index opening (`auth/commitment/kzg`): the quotient loop, the verifier's
  equation and the in-place bit reversal;
- the batching opening worker (`accelerators/cuda`) as a state machine;
- the canonical byte encodings (`maltcid` and the cells of `auth/tree`).

## How it is modelled

Commitments are symbolic: a node reference (`Nodes.Ref`) is the vector of cells it
commits to, so committing is deterministic and binding by construction. Openings are
checked by an arbitrary scheme (`Evidence.Scheme`) that may accept many byte strings for
one cell; soundness assumes only that it accepts nothing but a vector's own entry, and
completeness only that it accepts what it makes. Cells are
datatypes decoded by their tag; `Malformed` stands for a cell whose bytes do not parse,
so trees given to the readers are arbitrary. `Codec` treats the byte form separately.
The slot count is 2^b for an arbitrary b >= 1. The derivation of coordinates from
labels is an arbitrary function, so distinct Map labels may collide; the List results
that need labels to be canonical indices say so (`Coordinates.IndexLabels`), and Direct
derivation is proved to provide it. Integers are unbounded; `Words` writes out the
64-bit shifts, differences and wrap-around that positions use.

Code that changes state is imperative here too: workspaces, edits, the snapshot walk,
the proof cache, the commit scope and the delta visitor are classes; appending,
truncating, replacing, proving, verifying, the index operations, the quotient and the
bit reversal are methods with loops. Each is proved against a specification function
or predicate, and the lemmas listed below say what those mean.

The specification of the tree is `ListTree.ListRoot` and `MapTree.MapRoot`: the root
that a complete construction gives for a list or for a set of bindings. An incremental
operation is correct when its result is that function of the updated contents, whatever
the tree looked like before. Two consequences need no lemma of their own: truncating an
extended list to its old count gives back the old root, and any two edit sequences that
lead to the same contents lead to the same root.

The reference functions say what an operation computes; what they mean is stated once
more in the caller's own terms, without them: when a change, a delta, a state or a view
is accepted and what each refusal names (`MapUpdate.Expected`, `Engine.Proper`,
`RetainedIndex.DeltaFits`, `WriterBuild.StateFits`, `Engine.ViewFits`), what an accepted
proof has shown (`Proofs.Convinces`), what a committed object stands for
(`ObjectGraph.Holds`, `ObjectGraph.Adopted`) and which version a graph delta replaces
(`GraphDelta.Follows`).

Two promises of the code fail on some inputs, and the model keeps the code's behaviour:

- `Writer.Update` does not accept every state that `BuildWriter` accepts. It is proved
  to accept exactly those that put no other label at a retained coordinate
  (`WriterUpdate.Update`); `WriterUpdate.RelabelRefused` gives a Map state that can be
  built but not reached, and `WriterUpdate.ListNeverRelabels` shows that Lists are free of it.
- Minimal varints of 2^63 and above are written but not read back, because the reader
  accepts at most nine bytes (`Codec.CanonicalRoundTrip` gives the exact bound). No length
  or profile that the formats use comes near it.

## Files

| files | what they hold |
|---|---|
| Words, Bits, ByteOrder, Sorting, Grouping, Vectors | words, keys, orders and batches |
| Geometry, Nodes, Coordinates, Codec | positions, cells, coordinates, encodings |
| ListTree, MapTree, MapBuild | the reference construction of both layouts |
| Workspace, Materialization | retained vectors, staging, export and import |
| SequenceUpdate, ListReplace, MapUpdate, Engine | incremental updates and complete commits |
| MapSnapshot, ListSnapshot, Snapshot | reading a tree back |
| Evidence, Proofs, Prover, Ranges | proofs and range proofs |
| Bindings, RetainedIndex, Writers, WriterApply, WriterBuild, WriterUpdate | the retained writer |
| ObjectGraph, ObjectCommit, ObjectAtomic | the recursive commit |
| LabelDiff, ObjectDelta, GraphDelta, DeltaComplete | the graph delta |
| Fields, Kzg, BitReversal | the KZG opening |
| Worker, WorkerRuns | the batching worker |

## Model

| member | source | states |
|---|---|---|
| Geometry.RootPosition | auth/tree/list.go:49-58 | the loop returns the position whose height the least-capacity lemma describes |
| Geometry.RootPositionIsLeast | auth/tree/list.go:49-58 | for every uint64 count the root's height is the least one whose capacity (C-1)*C^h covers the count |
| Geometry.RootHeightBound | auth/tree/list.go:49-58 | no root is higher than 64, so the shift loop and every descent end |
| Geometry.DigitUsed | auth/tree/list.go:70-78 | a digit is used exactly when its interval starts below the count, also when the shift reaches 64 |
| Geometry.ChildExact | auth/tree/list.go:79-88 | a used digit's child starts at digit*C^h without wrap-around, is nonempty, fits and is one level lower |
| Geometry.SlotExact | auth/tree/list.go:67-69 | every index below the count selects one used slot whose interval contains it |
| Geometry.ChildrenPartition | auth/tree/list.go:70-88 | the children's intervals follow one another from 0 and end at the count |
| Coordinates.DirectIndexLabels | auth/coordinate/coordinate.go:23-44 | under Direct derivation a label derives to index i exactly when it is the eight-byte encoding of i |
| Coordinates.EncodeIndexIs | auth/coordinate/coordinate.go:25-28 | the eight bytes of an index label are the base-256 digits of the index, highest first |
| Coordinates.BitsOfAt | auth/coordinate/coordinate.go:33-44 | a 32-byte key is read as its bits, the most significant of each byte first |
| Coordinates.CheckSelectorIs | auth/tree/engine.go:127-148 | a selector is accepted exactly when its label derives to its coordinate and the layout has such coordinates |
| ListTree.CheckPosition | auth/tree/list.go:120-142 | accepts a vector exactly when its width, cell roles and padding are those its position demands |
| ListTree.CanonicalShape | auth/tree/list.go:89-142 | every constructed List vector passes that check |
| ListTree.CanonicalChild | auth/tree/list.go:93-119 | the cell of a used digit is the constructed subtree of exactly the items in the digit's interval |
| Workspaces.Builder.ListNode | auth/tree/list.go:89-119 | builds the canonical List vector and emits every vector after its children |
| Workspaces.Workspace.GetNode | auth/tree/materialization.go:58-76 | a known vector is returned whole and makes exactly its children known; an unknown one is incomplete |
| Workspaces.Workspace.PutComputed | auth/tree/materialization.go:87-132 | a vector is retained exactly when all its child references are known, and child pointers keep matching the cells |
| Workspaces.Workspace.Seal | auth/tree/materialization.go:136-150 | a known root gives a faithful retained tree of that root |
| Workspaces.NodeEdit.GetNode | auth/tree/update.go:51-70 | each vector is loaded once and the base it was read from stays closed |
| Workspaces.NodeEdit.Finish | auth/tree/update.go:75-90 | writes every staged vector in order and cannot fail, because each follows its children |
| Materialization.Export.Visit | auth/tree/materialization.go:153-178 | adds exactly the vectors reachable from a node, each once and after its children |
| Materialization.CopyTo | auth/tree/materialization.go:153-178 | succeeds exactly when the output accepts every reachable vector, then holds each exactly once, children first; a failed export is still closed |
| Materialization.Retain | auth/tree/materialization.go:182-228 | retains a well-formed, available tree with all its descendants |
| Materialization.Import | auth/tree/materialization.go:182-228 | retains a root exactly when a bounded snapshot of it succeeds, with the same view; then the source held every vector of the tree |
| SequenceUpdate.AppendNode | auth/tree/sequence_update.go:72-132 | extending the canonical vector of a prefix gives the canonical vector of the longer list, at any height difference and with the old root demoted |
| SequenceUpdate.AppendBatch | auth/tree/sequence_update.go:36-71 | on a canonical root: the canonical root of the concatenation and the old count; an empty batch, an undefined target or a total above 2^64-1 is refused; nothing is written on an error; on any known root, canonical or not, no vector is ever missing |
| SequenceUpdate.TruncateNode | auth/tree/sequence_update.go:180-218 | cutting the canonical vector of a list gives the canonical vector of its prefix |
| SequenceUpdate.Descend | auth/tree/sequence_update.go:150-178 | following first children reaches the canonical vector at the shorter root's level that holds the kept prefix |
| SequenceUpdate.Truncate | auth/tree/sequence_update.go:135-179 | on a canonical root: the canonical root of the prefix with the payload kept, and a longer count is refused; on any known root no vector is ever missing |
| SequenceUpdate.SetPayload | auth/tree/sequence_update.go:222-244 | on a canonical root: the canonical root of the same items with the new payload; on any known root no vector is ever missing |
| ListReplace.AfterAtIs | auth/tree/update.go:276-320 | a batch at distinct indices changes exactly the named positions |
| ListReplace.ReplaceNode | auth/tree/update.go:276-320 | replaces targets below one vector: the canonical vector of the patched list exactly when every old target matches |
| Engine.CheckBatch | auth/tree/update.go:107-129 | accepts exactly the batches that have no fault, and the error names a fault of the batch |
| Engine.GoodBatchIs | auth/tree/update.go:107-129 | no fault means: every label derives to its coordinate, a Map change inserts, replaces or deletes, a List change replaces, and no coordinate is named twice; each error tells which of these fails, and whether two labels collide or one is repeated |
| Engine.ApplyMap | auth/tree/update.go:100-168 | on a canonical Map a proper batch succeeds exactly when every insert names an unbound key and every other change its own label with the bound target; the new root is the one a complete construction of the bindings gives in which exactly the named keys changed; otherwise a collision or a mismatch is named and nothing is written; on any known root no vector is ever missing |
| Engine.ApplyList | auth/tree/update.go:100-168 | on a canonical List a proper batch succeeds exactly when every index exists and holds its old target, with the canonical root of the list in which exactly the named indices changed; on any known root no vector is ever missing |
| MapTree.ComputeDigit | auth/tree/engine.go:301-318 | the digit at a depth is the value of its bits, and depths beyond the key are refused |
| MapTree.DigitOrder | auth/tree/engine.go:319-346 | keys sharing a path and differing in the next digit are ordered by that digit |
| MapTree.PathSeparates | auth/tree/engine.go:319-346 | a path as long as the key belongs to one key only, so distinct keys part before the depth limit |
| MapBuild.BuildMap | auth/tree/engine.go:319-346 | sorted bindings at distinct keys below a path give the canonical Map vector, children first |
| MapUpdate.EntryAfterIs | auth/tree/update.go:169-275 | a batch at distinct keys changes exactly the named keys |
| MapUpdate.PatchGroup | auth/tree/update.go:174-183 | changing a set of bindings commutes with descending into one slot |
| MapUpdate.CheckLeafRoute | auth/tree/proof.go:270-282 | holds exactly when the leaf's key and the query agree on every digit down to the depth |
| MapUpdate.ApplyEntries | auth/tree/update.go:222-250 | a slot's changes are applied exactly when each insert finds its key unbound and each other change its own label bound to the old target; exactly the named keys change; another label at the key is a collision, any other difference a mismatch |
| MapUpdate.AcceptedIs | auth/tree/update.go:163-168 | a batch is accepted exactly when every insert names an unbound key and every other change its own label with the bound target; it is refused as a collision exactly for another bound label, and as a mismatch otherwise |
| MapUpdate.PatchIs | auth/tree/update.go:235-250 | the updated bindings hold each changed key's own label with its new target, or nothing, and every other key as before |
| MapUpdate.EditLeaf | auth/tree/update.go:222-273 | inserting beside a leaf splits it, deleting it blanks the slot: the slot becomes the canonical cell of the updated group |
| MapUpdate.EditSubtree | auth/tree/update.go:188-221 | an edited subtree left with one leaf collapses into that leaf and an empty one into a blank: again the canonical cell |
| MapUpdate.CollapsedIs | auth/tree/update.go:197-219 | counting occupied cells decides the canonical cell: none, a lone leaf, or the subtree |
| MapUpdate.EditNode | auth/tree/update.go:169-275 | edits one Map vector: the cells of the canonical vector of the updated bindings exactly when every expectation below holds |
| Engine.CheckKeys | auth/tree/engine.go:196-204 | comparing sorted neighbours finds exactly the repeated coordinates |
| Engine.ListTargets | auth/tree/engine.go:207-212 | succeeds exactly when the indices are 0..n-1, each once, in any order |
| Engine.Commit | auth/tree/engine.go:164-220 | succeeds exactly when labels derive to their coordinates, targets are defined, no coordinate is listed twice, a Map has no payload and the indices of a List are below its length; gives the canonical root, whatever the order of the bindings; an error tells which of these fails |
| MapSnapshot.CommitAccepted | auth/tree/state.go:42-171 | every canonical Map vector is accepted and reads back as its bindings in key order |
| MapSnapshot.AcceptedCanonical | auth/tree/state.go:42-171 | every accepted Map vector is the canonical vector of the bindings read from it |
| MapSnapshot.ViewUnique | auth/tree/state.go:119-165 | a set of bindings has one view in coordinate order |
| ListSnapshot.ListAccepted | auth/tree/state.go:42-171 | every canonical List vector is accepted and reads back as its items |
| ListSnapshot.AcceptedList | auth/tree/state.go:42-171 | every accepted List vector is the canonical vector of the targets read from it |
| Snapshot.Walk.WalkMap | auth/tree/state.go:42-171 | walking a Map vector succeeds exactly on accepted, available trees within the bound and appends exactly their bindings |
| Snapshot.Walk.WalkList | auth/tree/state.go:42-171 | walking a List vector succeeds exactly on accepted, available trees and appends exactly their indexed targets |
| Snapshot.SnapshotBounded | auth/tree/state.go:25-176 | succeeds exactly on accepted, available trees whose view is within the bound, and returns that view; it reports missing state only where a vector below the root is missing or has the wrong width |
| Snapshot.OnlyCanonical | auth/tree/state.go:25-176 | committing the view of any accepted root gives that same root: only canonical trees are accepted |
| Snapshot.CommitIsRead | auth/tree/state.go:25-176 | a committed view is read back with the same bindings, in coordinate order, and the same payload |
| Snapshot.ListRootDetermines | auth/tree/state.go:25-176 | a canonical List root determines its items and its payload |
| Snapshot.MapRootDetermines | auth/tree/state.go:25-176 | a canonical Map root determines its bindings |
| Evidence.ProofWork.Load | auth/tree/proof_work.go:35-64 | a vector is available exactly when storage has it at full width, cached or not |
| Evidence.ProofWork.Open | auth/tree/proof_work.go:65-91 | cached evidence is the evidence a fresh opening gives |
| Prover.Prove | auth/tree/proof.go:57-163 | gives the honest answer of the committed tree; only missing storage can stop it; a label that does not derive to its coordinate is refused |
| Prover.Verify | auth/tree/proof.go:165-268 | an accepted answer says what the honest one says, whatever its evidence bytes, and the honest answer is accepted; whatever the backend, an accepted answer has the right format and length, evidence for each cell at its own node, no evidence beside an absent part, and ends in the leaf, blank slot or count that its claim needs |
| Proofs.CheckShows | auth/tree/proof.go:165-268 | at any vector and for any backend: each accepted cell has evidence at its own node, in a Map at the digit of the key; metadata is shown at a List root alone; absent parts have no evidence; each inner cell is a child of the same layout; the last cell is the label's own leaf, the item, a blank slot, a leaf of another key on the same route, or an index not below the count |
| Proofs.VerifiedShows | auth/tree/proof.go:165-268 | the same for a whole answer, with the format, 1 to 256 nodes, and presence in a List exactly below the count shown |
| Proofs.NothingStray | auth/tree/proof.go:190-216 | in an accepted answer no metadata evidence stands beside absent metadata, and no evidence beside an absent cell of a List |
| Proofs.CheckSound | auth/tree/proof.go:165-268 | at any vector, an accepted chain of openings shows the cells, presence and target of the honest traversal |
| Proofs.CheckComplete | auth/tree/proof.go:57-268 | at any vector, the honest chain of openings is accepted |
| Proofs.VerifySound | auth/tree/proof.go:57-268 | on every committed root, canonical or not, an accepted answer agrees with the honest one on presence, target and every cell |
| Proofs.VerifyComplete | auth/tree/proof.go:57-268 | what proving gives is accepted |
| Proofs.VerifyUnequivocal | auth/tree/proof.go:165-268 | no committed root has two accepted answers that disagree |
| Proofs.ProvenMap | auth/tree/proof.go:57-163 | on the canonical Map of some bindings a label is present with its target exactly when bound; another label at its coordinate is a collision, never absence |
| Proofs.ProvenList | auth/tree/proof.go:57-163 | on the canonical List of some items an index is present exactly below the count, with its item, and the first opening carries count and payload |
| Ranges.ReadMetadata | auth/tree/range.go:26-44 | the probe at the largest index gives the honest metadata evidence |
| Ranges.ProveRange | auth/tree/range.go:61-83 | with one shared cache the range is the one that independent proofs give; only missing storage can stop it |
| Ranges.VerifyRange | auth/tree/range.go:84-120 | an accepted range has the metadata and targets of the honest one, and the honest range is accepted; its bounds lie within the count its evidence shows, and it holds one present, fully evidenced answer for each index of the slice |
| Ranges.RangeIsSlice | auth/tree/range.go:45-120 | on the canonical List a range is provable exactly when it lies within the count; its segments are exactly the slice and its metadata the committed one |
| Bindings.IndexOrder | sdk/authentication/bindings.go:27-36 | index keys compare as their indices |
| Bindings.BindingKeyInjective | sdk/authentication/bindings.go:27-36 | distinct coordinates have distinct keys |
| Bindings.FieldsExact | sdk/authentication/bindings.go:16-26 | the key, maximum and size fields are the least key, the greatest key and the number of bindings |
| Bindings.Get | sdk/authentication/bindings.go:37-49 | finds exactly the binding of a key |
| Bindings.BranchSound | sdk/authentication/bindings.go:50-52 | joining two sides that part at a bit keeps the trie sound and holds both |
| Bindings.FirstDifference | sdk/authentication/bindings.go:67-73 | the first position at which two keys differ |
| Bindings.Set | sdk/authentication/bindings.go:53-91 | the contents with exactly one key bound anew, and the trie still sound |
| Bindings.DeleteRemoves | sdk/authentication/bindings.go:92-120 | the contents without the key, and the trie still sound |
| Bindings.BeforeRestricts | sdk/authentication/bindings.go:160-175 | the contents restricted to the keys below the limit, and the trie still sound |
| Bindings.WalkAscends | sdk/authentication/bindings.go:121-135 | the walk visits every binding once in ascending key order |
| Bindings.IndexUnique | sdk/authentication/bindings.go:53-120 | equal contents mean equal tries, whatever the edits that led to them |
| RetainedIndex.Accept | sdk/authentication/delta.go:57-97 | accepts the changes exactly when each fits the retained binding at its own coordinate; the index then holds the written contents and the replacements are those the tree needs |
| RetainedIndex.WritesAt | sdk/authentication/delta.go:57-97 | a batch at distinct coordinates writes exactly those coordinates |
| RetainedIndex.DenseBySize | sdk/authentication/delta.go:45-106 | a List index with in-range changes is dense exactly when it has the right size, and needs as many changes as positions are added |
| RetainedIndex.DeltaOkIs | sdk/authentication/delta.go:27-106 | a delta is accepted exactly when a Map has no sequence fields, every change finds its coordinate unbound or its own label bound to the old target, no coordinate is named twice, List changes leave targets below the new count, and every index a List gains is named |
| RetainedIndex.AfterLeaves | sdk/authentication/delta.go:27-106 | each named coordinate then holds its change, a List has lost the indices from its new count on, and every other coordinate is as before |
| RetainedIndex.CheckRetained | sdk/authentication/delta.go:66-88 | accepts a change exactly when it fits the retained binding, and each refusal names its own fault |
| Writers.MapPatched | sdk/authentication/delta.go:89-115 | the replacements compiled for the Map tree turn the retained bindings into exactly the new ones, idle changes left out |
| Writers.ListAfter | sdk/authentication/delta.go:89-134 | replacing, cutting and appending leave exactly the list that the edited index denotes |
| Writers.EditListTree | sdk/authentication/delta.go:107-139 | replace, truncate or append, and set the payload: the canonical root of the edited relations |
| Writers.AgreementUnique | sdk/authentication/writer.go:25-32 | writers in agreement with equal relations and payload have the same root and the same index |
| WriterApply.PlanDelta | sdk/authentication/delta.go:27-106 | every check is made on the index before the tree is touched, and passes exactly for fitting deltas |
| WriterApply.Apply | sdk/authentication/delta.go:27-149 | succeeds exactly when the delta fits, and every refusal names what does not; the new index holds exactly the named changes and agrees with the tree, an absent payload keeps the old one, and the previous root is linked unless nothing changed |
| WriterBuild.BindingsFromState | sdk/authentication/bindings.go:136-158 | files a state exactly when its labels derive, its targets are defined and its coordinates are distinct |
| WriterBuild.BuildWriter | sdk/authentication/writer.go:49-68 | builds exactly the proper states, every refusal names what is wrong with the state, the relations are exactly its entries, and the index and tree agree |
| WriterBuild.StateOkIs | sdk/authentication/writer.go:49-68 | a state is proper exactly when every label derives to a coordinate of the layout and has a target, no coordinate is listed twice, a Map has no payload and a List lists all its indices |
| WriterUpdate.CompileEntries | sdk/authentication/writer.go:179-212 | compiles desired entries to a batch with exactly the intended effect, unless a retained coordinate is relabelled |
| WriterUpdate.Update | sdk/authentication/writer.go:169-236 | accepts exactly the proper states of the same layout that put no other label at a retained coordinate, and every refusal names what is wrong; the result holds exactly the entries of the state and agrees |
| WriterUpdate.UpdateIsBuild | sdk/authentication/writer.go:49-68 | an updated writer has the root and the index of a freshly built one |
| WriterUpdate.RelabelRefused | sdk/authentication/writer.go:199-203 | a state that can be built but not reached by Update, since it relabels a coordinate |
| WriterUpdate.ListNeverRelabels | sdk/authentication/writer.go:199-203 | under canonical index labels no List update is refused for relabelling |
| WriterUpdate.ReadState | sdk/authentication/writer.go:116-129 | the state read back, in coordinate order, is one that can be built and denotes the same relations |
| WriterUpdate.RunAgrees | sdk/authentication/delta.go:27-149 | after any history of successful deltas and complete updates, mixed in any way, the writer has the root and the index that a fresh construction of the logical state gives |
| ObjectCommit.Scope.WithCommit | sdk/object/object.go:74-115 | an object already being committed is a cycle, a finished one is reused, and one is recorded only if nothing failed or was cancelled before |
| ObjectCommit.Scope.CommitChild | sdk/object/object.go:117-152 | gives the child's one version in this scope; a child committed for it has the root that it answered; a custom answer that contradicts the staged version is refused; every failure is remembered even if a caller swallows it |
| ObjectCommit.Scope.Adopt | sdk/object/object.go:141-151 | a custom answer stands for the version this scope filed under that CID, or for the CID alone |
| ObjectGraph.AdoptedIs | sdk/object/object.go:129-151 | an object that answers a fixed CID stands for that CID; one that answers with the result of a vertex's helper has that vertex's root, as a version this commit made |
| ObjectGraph.AnswerStays | sdk/object/object.go:126-151 | what an object stands for stays as more objects are committed |
| ObjectCommit.Scope.Run | sdk/object/object.go:117-152 | a Commit method may run its own helper, ignore its result and answer otherwise; the CID it answers is the one of its own helper, its own or its call's, and an error has a cause in the graph or a cancellation that a check saw; unless something failed, it has finished and so has every object it called |
| ObjectCommit.Scope.CommitReferences | sdk/object/base.go:150-188 | all references of a Map are validated before any child is committed |
| ObjectCommit.Scope.CommitLinks | sdk/object/list.go:89-109 | a built vertex commits to exactly its children's versions, in label order for a Map and by position for a List |
| ObjectCommit.Scope.Stage | sdk/object/snapshot.go:74-89 | a history is staged for its owner only; shared, copied and uninitialized histories are refused |
| ObjectCommit.RecordBuilt | sdk/object/object.go:94-114 | finishing a vertex keeps: finished vertices are built once each, to their children's versions, and staged |
| ObjectAtomic.Confirm | sdk/object/snapshot.go:100-104 | every staged history moves one version on |
| ObjectAtomic.Commit | sdk/object/object.go:74-152 | on success exactly the finished vertices advance, each once and to the well-made version of its own references, and every other finished object stands for the CID it answered, by the version this commit made where one was made before; on any failure no history changes, and the error has a cause in the graph or in a cancellation that a check saw; a cycle always fails, and so does a context cancelled before the commit or before it ends |
| ObjectAtomic.OneVersion | sdk/object/snapshot.go:74-104 | below everything a commit finishes there is one version of each vertex |
| ObjectGraph.CommittedHolds | sdk/object/base.go:172-190 | a committed vertex has exactly one arc and one child for each reference, in label order or by position, with the root of the version its target was committed to; a payload has its own arc or stands beside the arcs; the root is the one these arcs and payload get |
| ObjectGraph.LinksOrdered | sdk/object/base.go:172-172 | references of a Map are committed in ascending label order, those of a List by position under their index labels |
| ByteOrder.BytesLessIs | sdk/object/base.go:172-172 | labels and keys are ordered by the first byte that differs, a proper prefix first |
| ObjectAtomic.NeverReturns | sdk/object/object.go:88-152 | where Commit methods finished in the order of what they run, no walk over references and custom calls comes to an object twice: every cycle makes the commit fail, even if a custom object swallows the error |
| ObjectAtomic.WalkBack | sdk/object/object.go:88-152 | along any walk over references and custom calls, Commit methods finish in the opposite order |
| ObjectGraph.NoReturn | sdk/object/object.go:88-96 | the version of a committed vertex is strictly inside that of every vertex that reaches it by references |
| ObjectGraph.SealedMade | sdk/object/base.go:39-55 | a vertex sealed from well-made children is well made: distinct labels, the reserved payload label included, and a List payload as a further child |
| LabelDiff.DiffEntries | sdk/object/delta.go:197-224 | exactly the labels whose targets differ, each once with both targets, in label order |
| LabelDiff.DifferencesApply | sdk/object/delta.go:197-224 | applying the differences to the previous labels gives the new labels |
| ObjectDelta.IndexSnapshots | sdk/object/delta.go:77-102 | indexes every version reachable from the root, and a reference without content never hides a materialized one |
| GraphDelta.Visitor.Visit | sdk/object/delta.go:126-171 | finishes each CID once after everything it depends on, or finds a real cycle |
| GraphDelta.Diff | sdk/object/delta.go:104-195 | for every version that commits make: equal roots give an empty delta; otherwise the write set of the two indexes, or a real cycle; every emitted delta is of a new root and replaces a version of the same vertex in the previous graph, its changes turning those labels into the new ones, or creates the vertex where the previous graph had no arcs of it |
| GraphDelta.IsDeltaFollows | sdk/object/delta.go:153-171 | the previous root of a delta is that of a version of the same vertex id in the previous graph; it is undefined only if no version of that id has arcs there |
| GraphDelta.FollowsOnly | sdk/object/delta.go:153-171 | where the previous graph holds one version of each vertex, as commits make it, a delta names that version's root and the exact changes from its labels |
| ObjectDelta.MadeBelow | sdk/object/snapshot.go:15-27 | a version that is well made holds only well-made versions |
| DeltaComplete.DeltaIsComplete | sdk/object/delta.go:104-195 | every CID of the new graph that the old graph lacks is emitted exactly once, as a delta, a block or an external reference, and nothing else is |
| DeltaComplete.DeltasFollow | sdk/object/delta.go:126-171 | every new arc set of the new graph has exactly one delta, which takes one of its vertices from the version the previous graph had |
| DeltaComplete.LeavesFollow | sdk/object/delta.go:172-195 | blocks are listed for exactly the new content, with bytes of the graph; external are exactly the new CIDs of which the new graph knows neither bytes nor arcs |
| DeltaComplete.DeltasOrdered | sdk/object/delta.go:126-171 | each delta follows the deltas of everything its vertex depends on, also through vertices that are not emitted |
| Kzg.ProveAtIndex | auth/commitment/kzg/fast.go:107-153 | for every domain size and index the loop yields the quotient: q_j(w_j - w_m) = f_j - f_m for all j, and the sum of q_j w_j is zero |
| Kzg.SumTerms | auth/commitment/kzg/fast.go:120-146 | partial sums of the quotient and of the values stay related at every point |
| Kzg.OpeningVerifies | auth/commitment/kzg/fast.go:155-215 | with the quotient, the verifier's equation holds at every point for the committed value and for no other |
| BitReversal.BitReverse | auth/commitment/kzg/fast.go:63-71 | in place, element i becomes the element at the reversed index |
| BitReversal.ReverseBits | auth/commitment/kzg/fast.go:63-71 | bit i of a reversed index is the bit i places below the top one |
| BitReversal.ReverseWord | auth/commitment/kzg/fast.go:63-71 | reversing a 64-bit word and shifting it back reverses the low bits |
| BitReversal.ReversalRestores | auth/commitment/kzg/fast.go:63-71 | reversing twice restores the array |
| BitReversal.ReversalPermutes | auth/commitment/kzg/fast.go:63-71 | a reversal keeps every element as often as before |
| WorkerRuns.RunSafe | accelerators/cuda/cuda.go:93-218 | over all interleavings: the queue and the batch stay bounded, the device is open while a batch is computed and closed only after the loop returned, a stopped worker has closed `done`, and Close returns only then |
| WorkerRuns.RunAnswers | accelerators/cuda/cuda.go:117-150 | a point returned to a caller is the device's point for the caller's own vector and index |
| WorkerRuns.RunRefusals | accelerators/cuda/cuda.go:117-150 | a caller is refused as invalid only for a vector, index or scalar out of range, as busy only by an open worker whose queue is full, and with the worker's end only once it has ended that way |
| WorkerRuns.RunOutcome | accelerators/cuda/cuda.go:117-143 | every submission gets what it deserves, and for good: invalid, the reason of the end, busy, or its place at the end of the queue |
| WorkerRuns.RunReason | accelerators/cuda/cuda.go:190-215 | a worker ends as closed only after a Close, and as failed only after its device failed a batch or answered the wrong number of points |
| WorkerRuns.RunNoMoreBatches | accelerators/cuda/cuda.go:184-188 | once `done` is closed no further batch is computed |
| WorkerRuns.RunMonotone | accelerators/cuda/cuda.go:117-210 | a job gets at most one result, and after the stop no job is accepted and the reason stays |
| WorkerRuns.NeverStuck | accelerators/cuda/cuda.go:136-202 | a waiting caller can return, or the device thread can move |
| WorkerRuns.WorkFalls | accelerators/cuda/cuda.go:151-202 | without new jobs the device thread comes to rest |
| Worker.KeepsAccounted | accelerators/cuda/cuda.go:151-202 | no job is queued or batched twice, or still pending once it has its result |
| Worker.KeepsServed | accelerators/cuda/cuda.go:136-202 | a job is dropped only when the thread is leaving |
| Codec.CanonicalRoundTrip | maltcid/root.go:114-120 | a written varint is read back exactly when it is below 2^63 |
| Codec.CanonicalUnique | maltcid/root.go:114-120 | an accepted varint is the minimal encoding of its value |
| Codec.UvarintGroups | maltcid/root.go:114-120 | a varint holds seven-bit groups, lowest first, with the high bit on all but the last |
| Codec.MulticommitmentInverse | maltcid/root.go:82-112 | parsing and encoding undo each other both ways |
| Codec.NodeRefInverse | maltcid/root.go:173-197 | parsing and encoding undo each other both ways |
| Codec.RootInverse | maltcid/root.go:123-166 | parsing and constructing a root undo each other both ways |
| Codec.Formats | maltcid/root.go:80-197 | multicommitments, node references and roots of both profiles and layouts, byte by byte |
| Codec.OtherFormats | maltcid/root.go:49-78 | nothing else is encoded: two profiles of fixed size, two layouts, version zero |
| Codec.MapCellInverse | auth/tree/engine.go:277-300 | every label with a canonical target is framed and read back, and only its own framing is accepted |
| Codec.MetadataInverse | auth/tree/list.go:21-39 | count and payload are framed and read back, and only their own framing is accepted |
| Codec.CellFormats | auth/tree/list.go:21-39 | Map leaf and metadata cells, byte by byte |

## Left out

- Elliptic curves, pairings, SHA-256 and the IPA transcript: commitments are symbolic and the KZG algebra is over an arbitrary field, so computational soundness is not stated beyond what the binding of a scheme says.
- The construction of the KZG domain from a generator: the domain is any sequence of distinct nonzero points, and the Lagrange values at the secret point are any values with the two identities the roots of unity give them.
- CID and multihash internals: targets are byte strings, and canonical decoding of a target is a parameter.
- Node lookups other than a workspace as the source of an edit: their vectors are checked against their commitment on loading, which symbolic references make automatic.
- The order in which an update batch is sorted before a Map edit: it decides only which of several faults is reported, and the model states that the reported fault is a real one.
- Profile registries, descriptors and the codec of roots inside the tree: one profile is fixed and a root is its node reference.
- Context cancellation inside tree and writer operations, observation, charge accounting and defensive copies; cancellation is modelled in the object commit, where it can strike at any check.
- Nil labels: a label is a byte string and an absent one cannot be written.
- The `visiting` check of the snapshot walk: symbolic references are well founded, so a vector cannot contain itself.
- Allocation failures and the wrap-around of the `size` field of the binding index beyond 2^64 bindings.
- ObjectCommit.Scope.Run: a custom Commit method calls other Commit methods before its own helper, ignoring their errors, and only along decreasing ranks; direct recursion that never passes through a built-in helper does not end in the code either.
- ObjectCommit.Scope.CommitLinks: the root a vertex gets is an arbitrary function of its arcs and payload that may fail, because the writer is modelled separately.
- ObjectAtomic.Commit: the calls that a custom object makes before opening the outermost scope are commits of their own; the walk of a commit starts at the helper that opened it.
- GraphDelta.Diff: versions are compared by value where the code compares pointers, which changes how often one is visited but not what is indexed.
- DeltaComplete.DeltaIsComplete: like DeltasFollow and LeavesFollow, it assumes that a root determines its arcs and its children's roots, as binding commitments give; the shape it asks of versions is what `ObjectAtomic.Commit` ensures.
- WorkerRuns.WorkFalls: fairness of the scheduler is not modelled; the lemma bounds the thread's own steps.
- Import and export of portable candidates, sessions, traversal, stores, schemas and the host: bookkeeping around the operations above.
