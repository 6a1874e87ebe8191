# Monomer groups and linear polymer assembly (polymerist)

This project is a Dafny model of two parts of polymerist:

- the `MonomerGroup` record (`polymerist/polymers/monomers/repr.py`);
- the linear chain builder `build_linear_polymer` (`polymerist/polymers/building.py`).

A monomer group maps residue names to lists of fragment patterns (SMARTS). It may also
carry a head/tail orientation that maps the roles `head` and `tail` to residue names.

A fragment with exactly one open port ("linker") is *terminal*: it caps an end of the
chain. Every other fragment counts as a middle unit, whatever its port count, including
zero (repr.py:77 only asks whether the count is 1). A fragment with more than two ports
makes the group *branchable*.

The builder goes through these steps:

1. It refuses branchable groups.
2. It picks an orientation: the declared one, or one inferred from the first two terminal
   fragments.
3. It zips the middle fragments with the block sequence, so only the first
   min(#middle fragments, |sequence|) of them are registered. With the default sequence
   `'A'` that is a single one.
4. It registers one end group per orientation entry, drawn from its residue's terminal
   fragments.
5. It asks the external chain builder for `DOP - 2` replications.

The modules follow the program's structure:

- `Errors`: the exceptions the source raises, `Result` and `Option`.
- `OrderedMaps`: Python dicts as insertion-ordered entry sequences.
  - `Put` is `d[k] = v`.
  - `Union` is `{**a, **b}`.
- `Monomers`: fragments, the group record, construction (`__post_init__`) and merging
  (`__add__`).
- `Queries`: `iter_rdmols`, `rdmols`, `n_monomers`, `num_mid_and_term`, `is_branchable`
  and `is_linear`.
- `Cursors`: drawing fragments from per-residue lists through per-residue cursors. The
  `cycle` iterators of `linear_end_groups` wrap around; the `iter` iterators of the builder
  do not.
- `EndGroups`: `linear_end_groups`.
- `Building`: `build_linear_polymer` as an assembly plan.
  - `BuildLinearPolymer` follows the code as written. The one exception is
    `has_valid_linear_term_orient`, which it takes as a parameter (see Left out).
  - `BuildLinearPolymerFixed` is the corrected version (see Findings).

The chemistry library is not modelled. A fragment is `Smarts(text, valid, linkers)`, which
carries what the library would report about it: whether the pattern parses, and the atom
indices of its ports. The number of ports is `|linkers|`.

Iteration order is modelled exactly: residues in insertion order, and fragments in list
order. This order decides which fragments become the end groups.

The model follows the code where its own comments and docstrings promise more:

- The docstring of `linear_end_groups` says that without a declared orientation it takes
  "the first <= 2" terminal groups (repr.py:105-106). It never fails: with fewer than two
  terminal fragments, `zip` stops early and fewer roles are returned.
- With a declared orientation, a residue with no terminal fragment fails with `KeyError`,
  as the comment at repr.py:122 says. This covers an unknown residue name and a known
  residue without terminal fragments, because `rdmols(term_only=True)` omits both. The
  `cycle` iterators (repr.py:119) let one residue serve both roles.
- The comment at building.py:73 promises `StopIteration` when there are fewer than two
  terminal fragments. As written, `zip` stops silently instead (see Findings).
- The build fails with `MorphologyError` for branchable groups only. Shortages of end
  groups appear as `KeyError` or `StopIteration` from the registration loop.

## Model

| member | source | states |
|---|---|---|
| OrderedMaps.PutKeys | polymerist/polymers/monomers/repr.py:42 | assigning to an existing key keeps every key in place (the dict does not change size); a new key is appended at the end |
| OrderedMaps.UnionKeys | polymerist/polymers/monomers/repr.py:142 | the keys of `{**a, **b}` are the keys of `a` in order, followed by the keys only `b` has, in `b`'s order |
| OrderedMaps.UnionLookup | polymerist/polymers/monomers/repr.py:142 | in `{**a, **b}` a key of `b` takes `b`'s value; any other key keeps `a`'s value |
| Monomers.FirstInvalid | polymerist/polymers/monomers/repr.py:47-49 | the validation loop finds no invalid pattern exactly when all patterns are valid; otherwise it reports the lowest index of an invalid pattern |
| Monomers.EntryCheck | polymerist/polymers/monomers/repr.py:35-49 | an entry is accepted exactly when it is a valid bare pattern or a non-empty list of valid patterns. An empty list (and only an empty list) gives IndexError, a value of another type gives TypeError, and an invalid pattern gives ValueError naming the residue, the first bad index and its text |
| Monomers.NormalizeEntries | polymerist/polymers/monomers/repr.py:34-49 | normalisation succeeds exactly when every entry is accepted. Then each residue keeps its position and a bare pattern becomes a one-element list; otherwise the error is that of the first rejected entry in insertion order |
| Monomers.Construct | polymerist/polymers/monomers/repr.py:32-51 | construction succeeds exactly when every entry is accepted. It then keeps the keys in order, gives every residue a non-empty list of valid patterns and stores the orientation unchecked; otherwise it raises the first offending residue's exception |
| Monomers.Merge | polymerist/polymers/monomers/repr.py:136-142 | merging with a non-group raises NotImplementedError; a merged group has the union of both fragment maps, with the right operand winning, no orientation, and is well formed |
| Monomers.MergeSucceeds | polymerist/polymers/monomers/repr.py:136-142 | merging two constructed groups never fails |
| Monomers.MergeContents | polymerist/polymers/monomers/repr.py:142 | merged residues are the left ones in order, then those only the right has; a residue's list comes from the right operand when it has the residue, else from the left |
| Queries.Sel | polymerist/polymers/monomers/repr.py:75-77 | the filtered list of one residue holds exactly the fragments of the list that the `term_only` filter keeps |
| Queries.SelOrder | polymerist/polymers/monomers/repr.py:75-78 | the filtered list is a subsequence of the residue's list, in list order. It holds each kept fragment as many times as the list does, and no other fragment |
| Queries.IterRdmolsFiltered | polymerist/polymers/monomers/repr.py:64-78 | filtered iteration is the full iteration with exactly the pairs whose fragment passes the filter, as a subsequence in the same order |
| Queries.IterEntriesAll | polymerist/polymers/monomers/repr.py:74-78 | the full iteration lists the first residue's fragments before the rest, and yields exactly the pairs of a residue name with a fragment of that residue's list |
| Queries.IterEntriesOrder | polymerist/polymers/monomers/repr.py:74-78 | residues are visited one after another in insertion order: no pair of a residue comes after a pair of a residue inserted later, whatever the filter |
| Queries.IterNth | polymerist/polymers/monomers/repr.py:74-78 | the j-th yielded pair holds the c-th kept fragment of its residue, where c counts the earlier pairs with that residue name |
| Queries.IterEntriesPartition | polymerist/polymers/monomers/repr.py:77 | the terminal-only and middle-only iterations together yield as many pairs as the unfiltered one |
| Queries.RdmolsGroups | polymerist/polymers/monomers/repr.py:80-93 | `rdmols` equals the reference grouping: residues in insertion order, each with its filtered list in list order, and residues with nothing kept are absent |
| Queries.RdmolsLookup | polymerist/polymers/monomers/repr.py:80-93 | `resname in rdmols(term_only)` holds exactly when the residue's filtered list is non-empty, and the stored list is then that filtered list |
| Queries.NMonomers | polymerist/polymers/monomers/repr.py:95-98 | `n_monomers` is the total length of all fragment lists, so variants under one name count separately |
| Queries.NumMidAndTerm | polymerist/polymers/monomers/repr.py:184-191 | the loop's counts equal the sizes of the middle-only and terminal-only iterations and sum to `n_monomers` |
| Queries.IsBranchable | polymerist/polymers/monomers/repr.py:166-172 | a group is branchable exactly when some fragment of some residue has more than two ports |
| Queries.IsLinear | polymerist/polymers/monomers/repr.py:174-177 | a group is linear exactly when every fragment of every residue has at most two ports |
| Cursors.DrawFrom | polymerist/polymers/monomers/repr.py:116-124 | drawing from per-residue iterators can only fail with KeyError (unknown name) or StopIteration (exhausted iterator) |
| Cursors.DrawFromSucceeds | polymerist/polymers/building.py:85-91 | the draws succeed exactly when each request in turn finds its residue ready; request i then gets the fragment under its residue's cursor, advanced once per earlier request for the same residue |
| Cursors.DrawFromFails | polymerist/polymers/building.py:85-91 | a failed draw raises the exception of the first request that cannot be served |
| EndGroups.Terminals | polymerist/polymers/monomers/repr.py:118 | a residue's terminal list holds exactly the terminal fragments of its list, and nothing for an unknown residue |
| EndGroups.TerminalsOrder | polymerist/polymers/monomers/repr.py:118 | a residue's terminal list is empty for an unknown residue. Otherwise it is a subsequence of the residue's list, in list order, holding each terminal fragment as often as the list does and nothing else |
| EndGroups.TerminalDraw | polymerist/polymers/monomers/repr.py:116-122 | a draw from `rdmols(term_only=True)` is possible exactly when the residue has a terminal fragment (wrapping) or an unused one (not wrapping). It yields the fragment at the cursor; otherwise it raises KeyError for a residue with no terminal fragment and StopIteration for an exhausted one |
| EndGroups.DeclaredEnds | polymerist/polymers/monomers/repr.py:114-124 | with a declared orientation, the end groups exist exactly when every declared residue has a terminal fragment. Each role, in declaration order, then gets its residue's next terminal fragment under a wrap-around cursor |
| EndGroups.DeclaredEndsMissing | polymerist/polymers/monomers/repr.py:121-124 | with a declared orientation, failure is KeyError naming the first declared residue without a terminal fragment |
| EndGroups.SharedResidue | polymerist/polymers/monomers/repr.py:116-123 | when one residue is declared for both roles, in either order, the role declared first gets its first terminal fragment and the other role its second, wrapping to the first when there is only one |
| EndGroups.AutoEndGroups | polymerist/polymers/monomers/repr.py:125-133 | without a declared orientation the selection never fails; head and tail go to the first and second terminal pairs in iteration order, as many as exist up to two, and each chosen fragment is terminal and lies in the list of the residue it is reported with |
| EndGroups.AutoHead | polymerist/polymers/monomers/repr.py:125-133 | without a declared orientation there are no end groups exactly when no fragment is terminal; otherwise the head is a terminal fragment of the residue it names |
| Building.Attach | polymerist/polymers/building.py:91-93 | attaching end groups by `linker_ids.pop()` fails, with the empty-pop error, exactly when some drawn fragment has no ports. Otherwise there is one end unit per draw, in order, with the draw's residue, fragment and role, bonding through the fragment's last port index |
| Building.AttachTerminal | polymerist/polymers/building.py:91-93 | when every drawn fragment is terminal, attaching succeeds, one end unit per draw, each bonding through the fragment's only port with the draw's role |
| Building.Assemble | polymerist/polymers/building.py:77-98 | registration and assembly fail only with KeyError, StopIteration or an empty pop |
| Building.BuildLinearPolymer | polymerist/polymers/building.py:60-98 | the build fails with MorphologyError exactly when some fragment has more than two ports; a linear group yields a plan or a registration error (KeyError, StopIteration, empty pop) |
| Building.BuildLinearPolymerFixed | polymerist/polymers/building.py:60-98 | the corrected build also fails with MorphologyError exactly when some fragment has more than two ports, and otherwise only with a registration error |
| Building.DrawsReady | polymerist/polymers/building.py:85-91 | the non-wrapping draws succeed exactly when no residue is asked for more terminal fragments than it has; entry i then draws that residue's next unused terminal fragment |
| Building.AssembleSucceeds | polymerist/polymers/building.py:77-98 | assembly succeeds exactly when every entry finds an unused terminal fragment. Then there is one end group per entry, in order, with the entry's residue and role, bonding through its only port; there are `DOP - 2` replications, and the sequence and flags pass through |
| Building.AssembleFails | polymerist/polymers/building.py:85-91 | assembly fails at the first entry without an unused terminal fragment: KeyError when its residue has none, StopIteration when earlier entries used them up |
| Building.MiddleRegistration | polymerist/polymers/building.py:78-82 | the middle units are the non-terminal fragments in iteration order, each zipped with the next sequence symbol and carrying its port indices, as many as the shorter input |
| Building.AutoOrientShape | polymerist/polymers/building.py:71-74 | the inferred `{resname: role}` map is empty, head only, head and tail, or a single tail entry when both terminal pairs share a residue |
| Building.FirstTwoTerminals | polymerist/polymers/building.py:85-91 | the first inferred entry draws the group's first terminal fragment, and the second entry the second one, even from the same residue |
| Building.FixedAutoEnds | polymerist/polymers/building.py:70-74 | with at least two terminal pairs and no declared orientation, the corrected builder registers head and tail from the first two terminal pairs; these are the groups `linear_end_groups` selects |
| Building.AutoDistinctResidues | polymerist/polymers/building.py:70-74 | when the first two terminal pairs lie on different residues, the as-written and corrected builders agree |
| Building.DeclaredOrientMisread | polymerist/polymers/building.py:67-91 | as written, a declared orientation fails with KeyError naming the first role, unless a residue of that name has a terminal fragment |
| Building.FixedDeclaredEnds | polymerist/polymers/building.py:67-93 | the corrected builder with a declared orientation succeeds exactly when each declared residue has enough terminal fragments. It then registers one end group per declared role, in order, from the declared residue |
| Building.FixedDeclaredAgrees | polymerist/polymers/monomers/repr.py:114-124 | whenever the corrected builder registers a declared orientation, `linear_end_groups` also succeeds and selects the same end groups: same count, and for each role the same role, residue and fragment |
| Building.AutoOrientCollapse | polymerist/polymers/building.py:71-74 | as written, two inferred terminal pairs on one residue give a single end group labelled tail, carrying the head's fragment |
| Building.TooFewTerminals | polymerist/polymers/building.py:71-74 | as written, fewer than two terminal fragments give a plan with that many end groups and no error |
| Building.FixedTooFewTerminals | polymerist/polymers/building.py:73 | the corrected builder stops with StopIteration exactly when there are fewer than two terminal fragments |
| Building.ExampleChain | polymerist/polymers/building.py:60-98 | for a group with middle A and ends B (head) and C (tail), DOP 5 and sequence "A": construction succeeds, the as-written build fails with KeyError("head"), and the corrected build registers A once, B as head and C as tail, with 3 replications |
| Building.ResetCharges | polymerist/polymers/building.py:99-100 | every particle of the chain ends up uncharged, with nothing else changed |

## Left out

- `unique` and `is_homopolymer` (repr.py:147-163): `unique` always raises NotImplementedError, and so does calling `is_homopolymer()`. There is no behaviour to model.
- `is_linear_homopolymer` (repr.py:179-182): it evaluates `self.is_linear and self.is_homopolymer` without calling the method. So it never raises: it returns False for a branchable group and the bound method, which is truthy, for a linear one. The model has no values of that kind; `Queries.IsLinear` covers the first operand.
- `__radd__` (repr.py:144): the same function as `__add__` with the operands as Python passes them. `Monomers.Merge` covers it.
- The `SMARTS` alias property (repr.py:59-62): it returns the same map.
- The `make_jsonifiable` decorator and serialisation: external code.
- Logging calls: no effect on results.
- `mbmol_from_mono_rdmol` and `mbmol_to_openmm_pdb`, together with the mbuild chain object: external libraries.
  - The chain is reduced to the plan it is given: registered middle units, end units, the replication count, the sequence and the flags.
  - Port indices are the fragment's `linkers`, and the last one is popped.
- `estimate_chain_len_linear`: only logged, so it does not affect the result.
- Energy minimisation (building.py:103-105): an external call; the flag is carried in the plan.
- `has_valid_linear_term_orient` (building.py:67): `MonomerGroup` (repr.py:27-191) does not define this attribute. As written, a linear group therefore raises AttributeError at that line, unless the attribute is supplied elsewhere. The builders take its value as the boolean parameter `validOrient`. Everything stated about `BuildLinearPolymer` and `BuildLinearPolymerFixed` assumes the attribute exists.
- Building.ResetCharges: the particle list comes from the external build, so it is a parameter. Charges are reals, not floating point.
- FixedDeclaredEnds: the corrected builder keeps the source's non-wrapping iterators (building.py:85-88). A residue with a single terminal variant, declared for both roles, therefore gives StopIteration, where `linear_end_groups` wraps around through `cycle` (repr.py:116-122). `Building.FixedDeclaredAgrees` states agreement only for builds that succeed.
- Queries.Rdmols: `rdmols` returns a `defaultdict(list)` (repr.py:89, 93). Indexing it with a residue that kept nothing returns `[]` and inserts the key, whereas the model's plain ordered map reports the key as absent. The model only states membership and the stored lists. The modelled callers (repr.py:116-118, building.py:85-88) only iterate over its items, so no result depends on the difference.
- The chemistry library (pattern validity, port counting, linker ids): these are fields of `Smarts`, not computed from the pattern text.
- Monomers.Construct: `__post_init__` writes the wrapped list back into the caller's dict (repr.py:42). This mutates the input, even when a later residue fails. The model is pure: it returns the normalised map and leaves the input unchanged, so that side effect is not modelled.
- Monomers.Construct: requires distinct residue names. A Python dict cannot hold duplicates, so every input that can occur satisfies it.
- Non-string elements inside a fragment list: the source does not check them before the validity test. The model's lists hold patterns only.
- The context files `analysis/mdtwraps.py`, `polymerist/genutils/importutils/dependencies.py`, `maths/linearalg/affine.py` and `genutils/decorators/meta.py` are not part of this model: none of them is called by the modelled code.

## Findings

| source | as written | input that shows it | evidently intended | confidence | as-written member | corrected member |
|---|---|---|---|---|---|---|
| polymerist/polymers/building.py:89 | the declared orientation maps role to residue name, but `for resname, head_or_tail in term_orient.items()` reads it as residue name to role, so the role name is looked up as a residue | assuming `has_valid_linear_term_orient` exists and is true for it: residues A (two ports), B and C (one port each), orientation {head: B, tail: C}, DOP 5, sequence "A": fails with KeyError("head") | each role drawn from its declared residue (B as head, C as tail), keeping the builder's non-wrapping iterators (building.py:85-88) | medium, not executed | Building.DeclaredOrientMisread | Building.FixedDeclaredEnds |
| polymerist/polymers/building.py:71-74 | the inferred orientation is keyed by residue name, so two terminal fragments of one residue overwrite each other | assuming `has_valid_linear_term_orient` exists and is false for it: one residue R with two terminal variants x, y and no other terminal fragment gives one end group, labelled tail, with fragment x | head x and tail y, matching `linear_end_groups` (repr.py:128-130) | medium, not executed | Building.AutoOrientCollapse | Building.FixedAutoEnds |
| polymerist/polymers/building.py:73 | `zip` stops silently, so fewer than two terminal fragments give a chain with fewer than two end groups, though the comment promises StopIteration | assuming `has_valid_linear_term_orient` exists and is false for it: a linear group with exactly one terminal fragment gives a plan with one end group and no error | stop with StopIteration when fewer than two terminal fragments exist | low, not executed | Building.TooFewTerminals | Building.FixedTooFewTerminals |
