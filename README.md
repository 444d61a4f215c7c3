# A verified model of the SIESTA calculator adapter's core

This project models the logic of `BaseSiesta`, the ASE adapter that turns an
atoms description plus a set of parameters into input for the SIESTA
electronic-structure program and reads some of its output files back. The
modelled core lives in `ase/calculators/siesta/base_siesta.py` (Python 2):

- **Species resolution** (`species`): a default specie per chemical symbol
  (user-given or synthesised with the global basis set), tagged overrides
  numbered after the defaults, and a per-atom species number. Module
  `Species`, file `species.dfy`. The loops of the source are methods over
  an `array<int>` of species numbers, proved against the functions
  `Defaults`, `Ids` and `Resolved`.
- **Parameter validation** (`set`): positivity of the two energies, the
  basis and spin enumerations, the two-step `xc` lookup and the fdf-keyword
  allow-list, in the source's order. Keywords left out of a `set` call
  take their constructor defaults; `label` defaults to `'siesta'`
  (line 29). Module `Parameters`, file `parameters.dfy`. The state `set` updates is a `Calculator` class.
- **The k-point grid block** (`_write_kpts`): the diagonal
  Monkhorst-Pack matrix written row by row. Module `Kpoints`, file
  `kpoints.dfy`.
- **Pseudopotential naming** (`pseudo_qualifier` and the loop of
  `_write_species`): the pseudopotential file, the link name with the
  species number (and `ghost`) inserted, the chemical label, the
  `ChemicalSpeciesLabel` line with its sign-flipped atomic number for
  ghosts, and the basis entries. Module `Pseudo`, file `pseudo.dfy`.
- **The eigenvalue files** (`read_eigenvalues`): the `.KP` weights, the
  `.EIG` header, the lines per k-point, and the dictionary keyed by
  (k-point, spin). Module `Eigenvalues`, file `eigenvalues.dfy`. A writer
  of the layout is the partner. Round-trip lemmas show that the reader gives
  back what the writer put in.
- **Smaller directives**: the density-matrix reuse condition, the preamble
  of `write_input`, the spin and exchange-correlation directives, and the
  `DM.InitSpin` block. Module `Directives`, file `directives.dfy`.

`text.dfy` (module `Text`) models the Python 2 string and list operations
the core relies on: `str.split(sep)`, `sep.join`, whitespace `split()`,
`'%d'` and `int()`, `str.lower()`, `os.path.basename`, `os.path.join`,
`list.insert` and slicing with negative indices. `wrappers.dfy` holds
`Option` and `Result`.

Most exceptions the modelled code can raise are explicit error values,
mostly the failure case of a `Result`. The exceptions that are not
modelled are listed under "Left out". The modelled ones are:
- the `assert` of line 183;
- the `ValueError`, `TypeError` and `Exception` of `set`, and the
  `IndexError` of `self.allowed_xc[xc][0]` for an empty author list;
- the `TypeError` of `'density' in properties` (line 344) when only the
  properties are `None`;
- a missing `SIESTA_PP_PATH`, an unknown chemical symbol and a missing
  pseudopotential file;
- the `IndexError` of the eigenvalue reader, the `ValueError` of its
  `int()` calls, and its `np.zeros` with a negative count. The `ValueError`
  of its `float()` calls is not modelled.

Python 2's integer `/` at line 682 floors. For the positive divisor 10
this agrees with Dafny's Euclidean division, so `LinesPerKpoint` uses it
unchanged.

## Model

| member | source | states |
|---|---|---|
| Species.UserDefaults | ase/calculators/siesta/base_siesta.py:171-173 | an entry is kept iff it is in the species input, is untagged and its symbol occurs among the atoms |
| Species.UserDefaultsInOrder | ase/calculators/siesta/base_siesta.py:171-173 | the kept entries are the species input at strictly increasing positions, and a position is kept iff its specie is untagged with a symbol among the atoms |
| Species.Tagged | ase/calculators/siesta/base_siesta.py:194 | an entry is kept iff it is in the species input and carries a tag |
| Species.TaggedInOrder | ase/calculators/siesta/base_siesta.py:194 | the kept entries are the species input at strictly increasing positions, and a position is kept iff its specie is tagged |
| Species.DefaultsUntagged | ase/calculators/siesta/base_siesta.py:171-182 | every default of `Defaults`, given or synthesised, is untagged |
| Species.Count | ase/calculators/siesta/base_siesta.py:199 | `sum(mask)` is positive iff some entry of the mask is true |
| Species.Paint | ase/calculators/siesta/base_siesta.py:190 | `numbers[mask] = value`: masked entries become `value`, the others keep their old value |
| Species.LastMatch | ase/calculators/siesta/base_siesta.py:195-201 | the override that decides an atom's number matches it, and no later override does (the later override wins) |
| Species.CollectDefaults | ase/calculators/siesta/base_siesta.py:171-182 | the loop yields the user defaults, then one synthesised default per further symbol in first-appearance order, and the symbols list in step |
| Species.CollectStep | ase/calculators/siesta/base_siesta.py:175-182 | one loop pass appends a default exactly when its symbol is not yet a default symbol |
| Species.NumberDefaults | ase/calculators/siesta/base_siesta.py:186-191 | every atom gets the 1-based position of its symbol among the default symbols, and the counter ends at K + 1 |
| Species.OverrideStep | ase/calculators/siesta/base_siesta.py:195-201 | one override pass renumbers exactly the atoms it matches and advances the counter iff it matched one |
| Species.NumberOverrides | ase/calculators/siesta/base_siesta.py:194-201 | after all overrides every atom holds the number the last matching override, or else its default, gives it |
| Species.ResolveSpecies | ase/calculators/siesta/base_siesta.py:159-204 | fails iff two user defaults share a present symbol (`DuplicateDefault`); otherwise returns `Resolved`: the defaults (`Defaults`) followed by all tagged overrides, and the per-atom numbers |
| Species.DefaultCount | ase/calculators/siesta/base_siesta.py:183 | the count test passes iff the present user defaults have distinct symbols |
| Species.UserDefaultsPresent | ase/calculators/siesta/base_siesta.py:171-173 | every user default kept names a symbol present among the atoms |
| Species.DefaultsCoverAtoms | ase/calculators/siesta/base_siesta.py:171-183 | when the assertion holds, the default symbols are duplicate-free, as many as the distinct symbols, and exactly the atoms' symbols |
| Species.IdsInRange | ase/calculators/siesta/base_siesta.py:186-201 | every atom's number (`Ids`, via `AtomId`) lies in 1..K+U; an atom no override matches is numbered by a default carrying its symbol |
| Species.SameSymbolSameId | ase/calculators/siesta/base_siesta.py:186-191 | atoms of one symbol that no override matches share a number |
| Species.SynthesisedOrder | ase/calculators/siesta/base_siesta.py:175-182 | synthesised defaults follow the order of first appearance of their symbols among the atoms |
| Species.DistinctInFirstAppearanceOrder | ase/calculators/siesta/base_siesta.py:175-182 | the distinct symbols are listed in order of first appearance |
| Species.AtomIdSnoc | ase/calculators/siesta/base_siesta.py:195-201 | appending an override changes the number of exactly the atoms it matches |
| Species.OverrideIdsConsecutive | ase/calculators/siesta/base_siesta.py:195-201 | the numbers taken by used overrides are exactly K+1..K+U |
| Species.OverrideIdsIncrease | ase/calculators/siesta/base_siesta.py:195-201 | a later override takes a larger number than an earlier used one |
| Species.UnusedOverrideNoShift | ase/calculators/siesta/base_siesta.py:199-201 | an override matching no atom takes no number, and removing it changes no atom's number |
| Species.UnusedOverrideMisnumbers | ase/calculators/siesta/base_siesta.py:199-202 | with an unused override before a used one, the atom's number points at the unused override in the returned list |
| Species.CorrectedResolution | ase/calculators/siesta/base_siesta.py:202 | the corrected list keeps only used overrides: same failure condition, same numbers, and every number denotes a fitting specie |
| Species.AllUsedIsConsistent | ase/calculators/siesta/base_siesta.py:194-202 | when every override matches some atom, the as-written result is consistent |
| Species.TwoUntaggedAtoms | ase/calculators/siesta/base_siesta.py:159-204 | two untagged atoms of one symbol give one synthesised specie and numbers [1, 1] |
| Species.OneTaggedOverride | ase/calculators/siesta/base_siesta.py:159-204 | one atom tagged 1 with a matching override gives [default, override] and numbers [1, 2] |
| Species.HydrogenPairDefaults | ase/calculators/siesta/base_siesta.py:171-183 | two hydrogen atoms without a user default get the one synthesised hydrogen default, and the assertion holds |
| Species.ExampleNumbers | ase/calculators/siesta/base_siesta.py:186-201 | an H atom and an H atom tagged 1, with an unused override before the used one: numbers [1, 2] |
| Parameters.FindFunctional | ase/calculators/siesta/base_siesta.py:239 | the first table entry named `xc`, or none exists |
| Parameters.FindAuthor | ase/calculators/siesta/base_siesta.py:244-249 | the first entry, in iteration order, whose author list holds `xc`, or none exists |
| Parameters.ResolveXc | ase/calculators/siesta/base_siesta.py:238-253 | a functional name resolves to (name, first author) or IndexError; else the first functional listing it as author; else ValueError |
| Parameters.ResolvedXcIsInTable | ase/calculators/siesta/base_siesta.py:238-253 | a resolved pair is a table key with one of that key's authors |
| Parameters.CheckFdfArguments | ase/calculators/siesta/base_siesta.py:256-269 | passes iff there are no arguments or a dictionary whose keys are all allowed; a non-dictionary gives the `TypeError`; a dictionary with other keys reports exactly the offending keys, never an empty set |
| Parameters.Validate | ase/calculators/siesta/base_siesta.py:217-269 | succeeds iff every check passes; the first failing check in source order decides the error, the fdf check's included; success stores the resolved xc pair |
| Parameters.WithDefaults | ase/calculators/siesta/base_siesta.py:29-44 | `SiestaParameters(**kwargs)` at line 214: every given keyword keeps its value and every omitted keyword takes its constructor default from `DefaultSettings` (label `siesta`, mesh cutoff 200 Ry, energy shift 100 meV, kpts [1, 1, 1], xc LDA, basis DZP, spin COLLINEAR, the rest empty or None), so a `set` call resets the keywords it does not name |
| Parameters.NonPositiveEnergyRejected | ase/calculators/siesta/base_siesta.py:217-222 | a non-numeric or non-positive mesh cutoff or energy shift is rejected as such |
| Parameters.BaseClassSetAlwaysFails | ase/calculators/siesta/base_siesta.py:238-252 | with the base class's empty `allowed_xc` every `set` call fails |
| Parameters.DefaultsValidate | ase/calculators/siesta/base_siesta.py:214-253 | the constructor defaults pass every check when the table lists LDA with an author |
| Parameters.Calculator.Set | ase/calculators/siesta/base_siesta.py:206-271 | on success the parameters become the validated defaults-filled keywords; on failure the error is reported and nothing changes |
| Kpoints.Grid | ase/calculators/siesta/base_siesta.py:470-485 | 3×3 and diagonal: `kpts[i]` on row i when `kpts` has that entry, else 1; 0 off the diagonal |
| Kpoints.WriteRow | ase/calculators/siesta/base_siesta.py:471-485 | the row string built cell by cell is row i of the block |
| Kpoints.WriteKpts | ase/calculators/siesta/base_siesta.py:459-487 | the text written is the k-point block `KptsBlock` |
| Kpoints.RowWords | ase/calculators/siesta/base_siesta.py:478-485 | a row (`Row`, built by `Cells`) splits into its three formatted entries and `0.0` |
| Kpoints.RowRoundTrip | ase/calculators/siesta/base_siesta.py:478-485 | each written row reads back as row i of the grid with displacement `0.0` |
| Kpoints.ReadWrittenGrid | ase/calculators/siesta/base_siesta.py:459-487 | reading back the written block gives the grid |
| Pseudo.PseudoQualifier | ase/calculators/siesta/base_siesta.py:587-590 | the user's qualifier, or else the functional lower-cased character by character |
| Pseudo.PseudoDirectory | ase/calculators/siesta/base_siesta.py:518-524 | `pseudo_path`, else the environment value, and an error iff neither is set |
| Pseudo.PseudoFile | ase/calculators/siesta/base_siesta.py:536-546 | the specie's own file when it names one, else `symbol.psf` for an empty qualifier and `symbol.qualifier.psf` otherwise |
| Pseudo.Locate | ase/calculators/siesta/base_siesta.py:548-549 | an absolute file is kept, a relative one is joined onto the directory, and a bare file name ends up as the base name of the path |
| Pseudo.LinkName | ase/calculators/siesta/base_siesta.py:555-561 | the dotted parts of the link name are those of the file's base name with the species number, then `ghost` for a ghost, inserted before the last part |
| Pseudo.NamedParts | ase/calculators/siesta/base_siesta.py:557-560 | `insert(-1, ...)` of the number, then of `ghost`, puts them before the last part and keeps the others in order |
| Pseudo.LabelOf | ase/calculators/siesta/base_siesta.py:568 | the label's dotted parts are the name's without the last; a name without a dot gives the empty label |
| Pseudo.Entry | ase/calculators/siesta/base_siesta.py:531-574 | succeeds iff the symbol is known and the located file exists; an unknown symbol and a missing file give their errors, the missing path included; success gives the `ChemicalSpeciesLine` of the number, the (for a ghost negated) atomic number and the label, the basis entry under that label, and the link exactly when the working-directory path differs from the file |
| Pseudo.Block | ase/calculators/siesta/base_siesta.py:528-574 | on success one chemical-label line and one basis entry per specie |
| Pseudo.WriteSpecies | ase/calculators/siesta/base_siesta.py:518-579 | the loop yields the directory error or the lists of `Block`, stopping at the first failing specie |
| Pseudo.BlockNumbersByPosition | ase/calculators/siesta/base_siesta.py:531-532 | specie k of the list is written with species number k + 1 |
| Pseudo.PrefixFailure | ase/calculators/siesta/base_siesta.py:531-553 | a failure on a prefix of the species is the failure of the whole loop |
| Pseudo.LinkNameOfDottedFile | ase/calculators/siesta/base_siesta.py:555-568 | `stem.ext` is linked as `stem.n.ext` (`stem.n.ghost.ext` for a ghost) and labelled without its extension |
| Pseudo.DefaultFileLinkName | ase/calculators/siesta/base_siesta.py:536-561 | with a qualifier q, the default file is `directory/symbol.q.psf` and is linked as `symbol.q.n.psf` |
| Pseudo.UnqualifiedFileLinkName | ase/calculators/siesta/base_siesta.py:536-561 | with an empty qualifier, the default file is `directory/symbol.psf` and is linked as `symbol.n.psf` |
| Pseudo.LocatedLink | ase/calculators/siesta/base_siesta.py:548-561 | a file name `stem.ext` without a slash is looked for in the directory and linked as `stem.n.ext` |
| Pseudo.UndottedLink | ase/calculators/siesta/base_siesta.py:555-568 | a base name without a dot is linked as `n.base` and labelled `n` |
| Pseudo.UndottedFileName | ase/calculators/siesta/base_siesta.py:555-568 | a base name without a dot gets the number in front, `Hpsf` giving `2.Hpsf` and label `2` |
| Pseudo.LabelTail | ase/calculators/siesta/base_siesta.py:555-568 | a label's dotted parts end with the species number, followed by `ghost` for a ghost |
| Pseudo.DistinctNumbersDistinctLabels | ase/calculators/siesta/base_siesta.py:555-568 | species with different numbers get different labels, even when they share a file |
| Pseudo.ChemicalSpeciesLineRoundTrip | ase/calculators/siesta/base_siesta.py:569 | the label line `ChemicalSpeciesLine` reads back as the species number, the atomic number and the label |
| Pseudo.GhostNegatesAtomicNumber | ase/calculators/siesta/base_siesta.py:558-569 | a ghost's line carries the negated atomic number, a non-ghost's the atomic number |
| Eigenvalues.IntToken | ase/calculators/siesta/base_siesta.py:678-679 | `int()` of a token succeeds iff it parses, with that value |
| Eigenvalues.KpointCount | ase/calculators/siesta/base_siesta.py:666-667 | succeeds iff `int()` reads the first line (`ParseIntLine`: one integer token, or a sign and a digit run parted by whitespace) as an integer that is not negative, with that integer as the count; a line `int()` rejects is a ValueError and a negative count the `np.zeros` error |
| Eigenvalues.SeparatedSignCount | ase/calculators/siesta/base_siesta.py:666-667 | a count line `"+ d"` or `"- d"` is read as the signed value of the digits, as CPython 2 skips whitespace after the sign; a negative value is the `np.zeros` error |
| Eigenvalues.SeparatedSignExamples | ase/calculators/siesta/base_siesta.py:666-667 | `"+ 5"` gives five k-points and `"- 0"` none |
| Text.ParseSeparatedSign | ase/calculators/siesta/base_siesta.py:666 | `int()` of a sign, a space and a digit run gives the signed value |
| Eigenvalues.Weights | ase/calculators/siesta/base_siesta.py:668-670 | succeeds iff lines 1..n all exist and have a fifth token, with weight k the fifth token of line k+1; otherwise an IndexError |
| Eigenvalues.ReadWeights | ase/calculators/siesta/base_siesta.py:664-670 | the loop yields the weights of the `.KP` text or its first error |
| Eigenvalues.ReadWrittenWeights | ase/calculators/siesta/base_siesta.py:664-670 | the weights (`WeightsOf`) of a written `.KP` file come back in order |
| Eigenvalues.ReadHeader | ase/calculators/siesta/base_siesta.py:676-679 | succeeds iff line 0 has a token, line 1 exists and its first two tokens parse as integers, giving the Fermi token and the band and spin counts; each missing line or token is an IndexError and each unparsable count a ValueError, in the order Python evaluates them |
| Eigenvalues.LinesPerKpoint | ase/calculators/siesta/base_siesta.py:682-683 | the ceiling of the value count over ten |
| Eigenvalues.KpointLines | ase/calculators/siesta/base_siesta.py:682-683 | a k-point of p values is written on `LinesPerKpoint(p)` lines |
| Eigenvalues.KpointValues | ase/calculators/siesta/base_siesta.py:686-689 | fails iff the k-point has no line at all |
| Eigenvalues.CollectValues | ase/calculators/siesta/base_siesta.py:687-689 | the list `v` is the first line's tokens but the first, then every further line's tokens |
| Eigenvalues.KpointLinesValues | ase/calculators/siesta/base_siesta.py:687-689 | the values of a written k-point read back, the index token dropped |
| Eigenvalues.StoreSame | ase/calculators/siesta/base_siesta.py:690-694 | storing k-point i puts its values under its keys, split at `bands` when spin-polarised |
| Eigenvalues.StoreOther | ase/calculators/siesta/base_siesta.py:690-694 | storing k-point i leaves the values of every other k-point as they were |
| Eigenvalues.StoreKeys | ase/calculators/siesta/base_siesta.py:690-694 | storing k-point n adds the keys (n, 0), and (n, 1) when spin-polarised, and no others |
| Eigenvalues.EigValues | ase/calculators/siesta/base_siesta.py:685-694 | in the dictionary `Eig`, k-point i's values are stored split at `bands` under (i, 0) and (i, 1) when spin-polarised, whole under (i, 0) otherwise |
| Eigenvalues.EigKeys | ase/calculators/siesta/base_siesta.py:684-694 | the keys are (i, 0) for every k-point and (i, 1) only when spin-polarised |
| Eigenvalues.ReadEigenvalues | ase/calculators/siesta/base_siesta.py:656-697 | the reader's loops yield the Fermi token, weights, band count, spin flag and dictionary, or the first error |
| Eigenvalues.ReadWrittenHeader | ase/calculators/siesta/base_siesta.py:676-681 | a written `.EIG` header reads back, and `lines[2:-1]` is exactly the body |
| Eigenvalues.WrittenKpointValues | ase/calculators/siesta/base_siesta.py:686-689 | slice i of a written body reads back as k-point i's values |
| Eigenvalues.WeightsPrefixFailure | ase/calculators/siesta/base_siesta.py:668-670 | the first failing weight line is the error of the whole weights loop |
| Eigenvalues.EigPrefixFailure | ase/calculators/siesta/base_siesta.py:684-694 | the first failing k-point is the error of the whole eigenvalue loop |
| Eigenvalues.ReadWrittenBody | ase/calculators/siesta/base_siesta.py:682-694 | the body of a written `.EIG` file reads back with every k-point's values under its keys |
| Eigenvalues.ReadWrittenEig | ase/calculators/siesta/base_siesta.py:676-694 | a written `.EIG` file reads back through `ReadHeader` and `Eig`: the header, and every k-point's values under its keys |
| Eigenvalues.ReadWrittenEigenvalues | ase/calculators/siesta/base_siesta.py:656-697 | a written `.KP` and `.EIG` pair reads back through `EigenvaluesOf`, and so through `ReadEigenvalues`: the Fermi token, the weights, the band count, the spin flag, and a dictionary with exactly the k-points' keys, each holding its values |
| Eigenvalues.TwoSpinsFourBands | ase/calculators/siesta/base_siesta.py:682-694 | four bands and two spins: one line per k-point, values 0-3 under spin 0 and 4-7 under spin 1 |
| Directives.UseSavedDensity | ase/calculators/siesta/base_siesta.py:337-340 | reuse iff the changes are unknown or avoid numbers, initial moments and initial charges |
| Directives.UseSavedDensityAntitone | ase/calculators/siesta/base_siesta.py:337-340 | fewer changes never forbid reuse, and a cell or position change always allows it |
| Directives.Preamble | ase/calculators/siesta/base_siesta.py:320-352 | nothing when both arguments are None; the `TypeError` of line 344 when only the properties are None; otherwise `DM.UseSaveDM` iff reuse, `SaveRho` iff density is asked, both names, and `SCFMustConverge` last, three directives plus one for each of the first two |
| Directives.SpinDirectives | ase/calculators/siesta/base_siesta.py:503-509 | `SpinPolarized` false for UNPOLARIZED, true for COLLINEAR and FULL, `NonCollinearSpin` only for FULL, nothing otherwise |
| Directives.XcDirectives | ase/calculators/siesta/base_siesta.py:511-515 | `XC_functional` first, then `XC_authors` iff the authors are not None |
| Directives.NonZeroMoments | ase/calculators/siesta/base_siesta.py:426-428 | the entries are exactly the non-zero moments, 1-based and in order |
| Directives.InitSpinBlock | ase/calculators/siesta/base_siesta.py:424-430 | the block is absent iff spin is UNPOLARIZED, and otherwise lists the non-zero moments |
| Directives.NonZeroMomentsUnique | ase/calculators/siesta/base_siesta.py:426-428 | the listing of the non-zero moments is unique |
| Directives.ListingEmpty | ase/calculators/siesta/base_siesta.py:426-428 | the block is empty iff every moment is zero |
| Text.Split | ase/calculators/siesta/base_siesta.py:556 | `str.split(sep)` gives at least one part and no part holds the separator |
| Text.Words | ase/calculators/siesta/base_siesta.py:678-679 | whitespace `split()` gives non-empty tokens free of whitespace |
| Text.Basename | ase/calculators/siesta/base_siesta.py:555 | the base name holds no `/` |
| Text.BasenameIsLastComponent | ase/calculators/siesta/base_siesta.py:555 | the base name is the end of the path, preceded by a `/` unless it is the whole path: everything after the last slash |
| Text.BasenameAfterSlash | ase/calculators/siesta/base_siesta.py:545-555 | the base name of a path ending in a slash followed by a slash-free name is that name |
| Text.PathJoin | ase/calculators/siesta/base_siesta.py:548-549 | an absolute second part replaces the first; otherwise a `/` is added between the parts exactly when the first is non-empty and does not end in `/` |
| Text.SplitJoin | ase/calculators/siesta/base_siesta.py:556-561 | splitting the joined dot-free parts gives the parts back |
| Text.JoinSplit | ase/calculators/siesta/base_siesta.py:556-561 | joining the split parts gives the string back |
| Text.Insert | ase/calculators/siesta/base_siesta.py:557-559 | `insert(i, x)` puts x at Python's normalised position of i (before the last element for -1) and keeps the other elements in order |
| Text.Slice | ase/calculators/siesta/base_siesta.py:681 | a Python slice with in-range bounds, the end possibly counted from the back as in `lines[2:-1]`, is the corresponding Dafny slice |
| Text.Lower | ase/calculators/siesta/base_siesta.py:588 | the result has no ASCII upper-case letter: each one becomes its lower-case letter, and every other character is kept |
| Text.LowerIdempotent | ase/calculators/siesta/base_siesta.py:588 | lowering a lowered string changes nothing |
| Text.ParseFormatInt | ase/calculators/siesta/base_siesta.py:569 | `int()` of what `'%d'` wrote gives the number back |
| Text.FormatIntInjective | ase/calculators/siesta/base_siesta.py:557 | distinct species numbers format differently |
| Text.WordsOfJoin | ase/calculators/siesta/base_siesta.py:687-689 | whitespace-splitting tokens joined by spaces gives the tokens back |
| Text.BasenameOfJoin | ase/calculators/siesta/base_siesta.py:549-555 | the base name of a file joined onto a directory is the file |

## Findings

| source | as written | input that shows it | evidently intended | confidence | as-written member | corrected member |
|---|---|---|---|---|---|---|
| ase/calculators/siesta/base_siesta.py:199-202 | a tagged override matching no atom takes no number but stays in the returned list, and `_write_species` numbers the list by position (lines 531-532) | two H atoms tagged 0 and 1, species `[H tag 2, H tag 1 ghost]`: the tag-1 atom is numbered 2, and position 2 of the list is the unused tag-2 override | only overrides that take a number are listed, so an atom's number denotes its own specie | not executed | Species.UnusedOverrideMisnumbers | Species.CorrectedResolution |

## Left out

- The subprocess command, `calculate`'s error handling and the `SIESTA` environment lookup (lines 125-148, 273-302): process plumbing. `SIESTA_PP_PATH` is a parameter of `Pseudo.WriteSpecies`.
- File writes, `remove_analysis`, the `os.path.exists` check, and the symlink removal and creation (lines 330-357, 384-388, 551-566). A file's existence is a set of existing paths. Each symlink is recorded as a (link name, target) pair to create when the joined working-directory path differs from the target.
- `format_fdf`, `Specie`, `PAOBasisBlock.script`, `read_rho`, `xv_to_atoms` and `FileIOCalculator`: `ase/calculators/siesta/parameters.py` and the base calculator are not part of this model. Directives are (keyword, value) pairs, and a PAO basis block is kept as opaque text.
- `ase.data.atomic_numbers` and `ase.units`: these are parameters (a symbol-to-number map and a pair of unit values).
- Floating point: the energies are reals, and eigenvalue and weight tokens are kept as text because `float()` is not modelled. The `%.4f`, `%.9f`, `%.14f` and `%.15f` formats are not modelled.
- `_write_fdf_arguments`, `_write_structure` apart from `DM.InitSpin`, `_write_atomic_coordinates`, `read`, `read_energy`, `read_forces_stress`, `read_dipole` and `read_pseudo_density`: these are float formatting and parsing of program output.
- The plumbing keywords `atoms`, `n_nodes`, `restart`, `ignore_bad_restart_file` and `siesta_executable` of `SiestaParameters`: they take no part in the checks of `set`.
- Parameters.WithDefaults: `SiestaParameters(**kwargs)` raises a `TypeError` for a keyword it does not know (line 214). The model's `Kwargs` has one field per known keyword, so such a call cannot be written.
- Parameters.Validate: a Python 2 `long` fails the `isinstance(value, (float, int))` test of line 218, but the model's `Number` stands for any number, so it passes. This is weaker than the source.
- Directives.InitSpinBlock: moments are scalars. A non-collinear 3-vector moment makes `M != 0` (line 427) raise a `ValueError`, which is not modelled.
- Eigenvalues.ReadEigenvalues: the source assigns `self.weights`, `self.n_bands` and `self.spin_pol` (lines 667-680) before later lines can fail. On failure the model returns only the error, so those partial assignments are not captured.
- Eigenvalues.KpointCount: past the machine word, CPython 2 parses the count line again as a `long`. That path is not modelled, so integers of any size are read the same way, whitespace after the sign included.
- Eigenvalues.ReadEigenvalues: the two `os.access` assertions (lines 660-661) are not modelled, because the file texts are parameters. A token that `float()` would reject is not an error in the model.
- Parameters.Validate: Python type errors other than the ones `set` checks for (a `kpts` that is not a sequence of integers, say) cannot arise, because the model's keywords are typed.
- Kpoints.WriteKpts: `kpts` is a sequence of integers, so the truncation `%d` applies to a float entry is not modelled.
- Pseudo.Entry: the label computed at lines 538-546 is overwritten at line 568 before any use, so it is not modelled.
