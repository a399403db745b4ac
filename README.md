# A verified model of the bookkeeping in mbd-vv's `calc.py`

`calc.py` drives a set of DFT calculations on atoms and solids. Most of it
hands work to a task engine and an external solver. This project models the
three pieces of plain logic inside it:

- **`get_force_occs(conf)`** turns an electron configuration such as
  `["1s2", "2s2", "2p3"]` into force-occupation directives for the solver.
  - Each token `"<n><letter>[<occ>]"` is parsed into a shell `(n, l, occ)`.
    The occupancy defaults to one electron.
  - The normaliser `nmaxocc` is the sum of `2l+1` over the shells.
  - Each shell is split greedily into spin sub-shells: spin 1 takes what fits,
    and spin 2 exists only when electrons are left over.
  - Every full sub-shell yields one directive `(1, spin, 'atomic', n, l, m, 1, nmaxocc)`
    per `m = -l..l`.
  - With no partly filled sub-shell, the result is the single key `"-"`.
  - With exactly one, the result has one key per way of placing its `k`
    electrons on distinct `m`: the comma-joined selection. Its value is the
    full-shell directives followed by one directive per chosen `m`.
  - With two or more, the source's assertion fails.
- **`get_crystal(group, a, species)`** builds the primitive cell of a cubic
  Strukturbericht structure:
  - A1 (fcc) and A2 (bcc) get one atom;
  - A4 (diamond) gets two atoms of the same species;
  - B1 (rock salt) and B3 (zinc blende) get two atoms of two species.
- **`chunks(iterable, n)`** cuts a sequence into consecutive pieces of `n`
  items. `get_solids` uses it to split a solid's label such as `"NaCl"` into
  the symbols `["Na", "Cl"]`.

Modules, in dependency order:

| file | module | contents |
|---|---|---|
| `wrappers.dfy` | `Wrappers` | `Option` and `Result` |
| `numerals.dfy` | `Numerals` | Python's `int(s)` for decimal strings and `str(i)` |
| `delimited.dfy` | `Delimited` | `sep.join(parts)` and `s.split(sep)`, with their round trip |
| `combinatorics.dfy` | `Combinatorics` | `range`, `itertools.combinations`, binomial coefficients |
| `shells.dfy` | `Shells` | parsing configuration tokens |
| `force_occupations.dfy` | `ForceOccupations` | `get_force_occs`: the specification `ForceOccs`, the method `GetForceOccs` and its properties |
| `cases.dfy` | `ForceOccupationCases` | worked configurations |
| `crystals.dfy` | `Crystals` | `get_crystal` |
| `chunks.dfy` | `Chunks` | `chunks` |
| `labels.dfy` | `ElementLabels` | the label split of `get_solids` |

`get_force_occs` and `chunks` change state in loops, so they are modelled as
methods with loops. Each method is proved equal to a specification function:
- `GetForceOccs` to `ForceOccs`;
- `Chunks` to `ChunksOf`.

The properties are proved about those functions. `GetForceOccs` is split into
one method per stage of the source:
- `ParseTokens`;
- `SumOrbitals`;
- `SplitSpins`, with `AppendSpins` for the inner spin loop and its `break`;
- `Classify`, with `AppendShell` for the `m` loop;
- `Enumerate`.

The token parsing, `get_crystal` and the label split are expressions, so they
are modelled as functions.

Python's dictionaries keep insertion order. The result of `get_force_occs` is
therefore a sequence of key/value entries. `Put` models `d[k] = v`, and
`Enumerate` proves that every assignment adds a new key at the end.

Some behaviours of the code are easy to misread, and the model follows the code in each:
- Because of the `break` at calc.py:182-183, a spin-2 sub-shell exists only
  when electrons are left after spin 1. So `"2p1"` has a single partly filled
  sub-shell and gives the three keys `"-1"`, `"0"`, `"1"`. One might expect it
  to leave an empty spin-2 sub-shell beside the spin-1 one and fail the
  assertion; it does not.
  Likewise `"2p3"` gives only `"-"`.
- `"3d0"` gives one empty sub-shell that is not full. That yields one empty
  selection, so the result is the single key `""` with no directives.
- `int()` accepts a sign, so a token such as `"2p-1"` parses to a negative
  occupancy. The spin split then keeps that negative count in one sub-shell.
  `combinations` with a negative size raises ValueError; this is
  `Failure(NegativeSelection)`. The bounds `0 <= occ <= 2l+1` of the spin
  split are therefore proved for configurations whose occupancies are not
  negative; the upper bound holds for all.
- An occupancy above `2(2l+1)` is cut off, because the spin loop runs only
  twice.

## Model

The specification functions model the source's expressions directly:
- `Shells.ParseConf` is the comprehension at calc.py:171-174;
- `ForceOccupations.ForceOccs` is the whole of calc.py:169-201;
- `ForceOccupations.NMaxOcc` is the `nmaxocc` sum at calc.py:175;
- `ForceOccupations.Table` is the dictionary filled at calc.py:196-200, `ForceOccupations.Label` is the key at calc.py:198, and `ForceOccupations.Directives` is the comprehension at calc.py:199;
- `Crystals.LatticeVectors` is the lattice at calc.py:205-208;
- `Chunks.ChunksOf` is what the generator at calc.py:229-235 yields;
- `ElementLabels.ElementSymbols` is the expression at calc.py:62-65.

Their properties are the lemmas and contracts in the table, which name them.

| member | source | states |
|---|---|---|
| `Numerals.ParseInt` | calc.py:172 | `int(s)` on decimal strings: succeeds exactly for one or more ASCII digits, optionally after one `+` or `-`; the digits read as their value, negated after `-` |
| `Numerals.IntToString` | calc.py:198 | `str(i)`: nonempty, digits only apart from a leading `-`, the `-` appears exactly for negative numbers, and there is no leading zero except in `"0"` itself |
| `Numerals.ParseIntOfIntToString` | calc.py:198 | reading back what `str` writes gives the number |
| `Numerals.IntToStringInjective` | calc.py:198 | different numbers are written differently |
| `Delimited.SplitJoin` | calc.py:198 | splitting a comma-joined list of comma-free pieces gives the pieces back |
| `Combinatorics.Range` | calc.py:190 | `range(lo, hi)` has `hi - lo` items (none if `hi <= lo`), item `i` being `lo + i` |
| `Combinatorics.Combinations` | calc.py:197 | `combinations(xs, k)` has `C(|xs|, k)` selections, each of length `k` |
| `Combinatorics.BinomialFactorials` | calc.py:197 | that count is `n! / (k! (n-k)!)` |
| `Combinatorics.CombinationsElements` | calc.py:197 | every selected item is an item of `xs` |
| `Combinatorics.CombinationsIncreasing` | calc.py:197 | from an ascending `xs`, every selection is ascending |
| `Combinatorics.CombinationsSorted` | calc.py:197 | from an ascending `xs`, the selections come in strictly ascending lexicographic order |
| `Combinatorics.CombinationsDistinct` | calc.py:197 | from an ascending `xs`, no selection is produced twice |
| `Combinatorics.CombinationsComplete` | calc.py:197 | from an ascending `xs`, every ascending `k`-selection of its items is produced |
| `Shells.OrbitalIndex` | calc.py:170-172 | `"spdf".index(c)`: the position of `c` in `"spdf"`, and an error exactly when `c` is not one of them |
| `Shells.ParseShell` | calc.py:172 | a token parses to `n` = value of its first digit, `l` = index of its letter in `"spdf"`, `occ` = `int` of the rest or 1 when there is no rest; IndexError exactly for an empty token or a lone digit; ValueError for an unknown letter exactly when the first character is a digit and the token has a second character outside `"spdf"`; ValueError for a non-integer exactly when the first character is no digit, or the letter is known and the rest after it is no integer; a token with a digit, a known letter and a rest parses exactly when the rest is an integer |
| `Shells.ParseConfTokens` | calc.py:171-174 | the configuration parses exactly when every token does, and shell `i` is the parse of token `i` |
| `Shells.ParseConfFirstError` | calc.py:171-174 | a failure reports the error of the first token that cannot be parsed |
| `Shells.ParseFormatShell` | calc.py:172 | a shell written out as a token parses back to itself |
| `ForceOccupations.GetForceOccs` | calc.py:169-201 | the whole function, loop for loop, returns `ForceOccs(conf)` |
| `ForceOccupations.ParseTokens` | calc.py:171-174 | the parsing comprehension returns `ParseConf(conf)`, stopping at the first bad token |
| `ForceOccupations.SumOrbitals` | calc.py:175 | the loop computes `nmaxocc`, the sum of `2l+1` over the parsed shells |
| `ForceOccupations.MRange` | calc.py:190 | `range(-l, l+1)` has `2l+1` items, ascending, item `i` being `i - l` |
| `ForceOccupations.SplitShell` | calc.py:177-183 | one or two sub-shells of the same shell, spins 1 then 2, each at most `2l+1`; spin 2 exists exactly when `occ > 2l+1`, and then spin 1 is full; for `occ >= 0` the counts are nonnegative and add up to `min(occ, 2(2l+1))`; a negative `occ` stays in spin 1 |
| `ForceOccupations.SpinSplit` | calc.py:176-183 | at least one and at most two sub-shells per shell counted over the whole configuration (`|shells| <= |r| <= 2|shells|`), each at most `2l+1` with spin 1 or 2; with no negative occupancy, every count is nonnegative and the total is the capped sum of the shell occupancies |
| `ForceOccupations.SplitOne` | calc.py:176-183 | a configuration of one shell has exactly that shell's sub-shells |
| `ForceOccupations.SpinSplitAppend` | calc.py:176-183 | the sub-shells come shell by shell, in input order |
| `ForceOccupations.SplitSpins` | calc.py:176-183 | the nested loop returns `SpinSplit(shells)` |
| `ForceOccupations.AppendSpins` | calc.py:178-183 | the spin loop with its `break` appends exactly `SplitShell(sh)` |
| `ForceOccupations.UnfilledIndices` | calc.py:185-189 | `unfilled` holds, in ascending order, exactly the positions of the sub-shells that are not full |
| `ForceOccupations.FilledDirectives` | calc.py:184-191 | `force_occs` has one directive per orbital of the full sub-shells, every one well formed with the given normaliser |
| `ForceOccupations.FilledDirectivesAppend` | calc.py:186-191 | `force_occs` is built sub-shell by sub-shell, in order |
| `ForceOccupations.SubShellDirectives` | calc.py:187-191 | a full sub-shell adds `2l+1` directives, directive `j` for `m = j - l`; a sub-shell that is not full adds none |
| `ForceOccupations.Classify` | calc.py:184-191 | the classification loop with its `continue` returns `force_occs` and `unfilled` as specified |
| `ForceOccupations.AppendShell` | calc.py:190-191 | the `m` loop appends one directive per `m = -l..l` |
| `ForceOccupations.IntStrings` | calc.py:198 | `map(str, ms)`: one string per number, in order, each being `str` of that number |
| `ForceOccupations.SelectionDirectivesWellFormed` | calc.py:199 | for a sub-shell of spin 1 or 2 and a selection with every `m` in `[-l, l]`, every directive of the comprehension is well formed: the fixed tags, the sub-shell's spin, `m` in range and the normaliser |
| `ForceOccupations.Put` | calc.py:198 | dictionary assignment: a new key is appended at the end; for an existing key, its first occurrence gets the new value in place and every other entry stays as it was |
| `ForceOccupations.FreshKey` | calc.py:197-198 | no selection's label repeats an earlier one, so every assignment adds a key |
| `ForceOccupations.Enumerate` | calc.py:196-200 | the `combinations` loop builds one entry per selection, in order: label, then full-shell directives, then one directive per chosen `m` |
| `ForceOccupations.LabelRoundTrip` | calc.py:198 | a key reads back into the selection it was made from |
| `ForceOccupations.LabelInjective` | calc.py:198 | different selections have different keys |
| `ForceOccupations.TwoUnfilledIndices` | calc.py:185-192 | `unfilled` has two or more positions exactly when two sub-shells are not full |
| `ForceOccupations.ParseFailure` | calc.py:171-174 | a configuration that cannot be parsed makes the call fail with the parse error |
| `ForceOccupations.AmbiguousIff` | calc.py:192 | after parsing, the call fails with the assertion exactly when two sub-shells or more are not full |
| `ForceOccupations.AllFilled` | calc.py:193-194 | with every sub-shell full, the result is the single key `"-"` holding `force_occs`, one directive per electron |
| `ForceOccupations.NegativeUnfilled` | calc.py:195-197 | with exactly one sub-shell not full, the call fails with the ValueError of `combinations` exactly when its electron count is negative |
| `ForceOccupations.OneUnfilledTable` | calc.py:195-201 | with exactly one sub-shell not full, the result is the table over the selections of its `m` |
| `ForceOccupations.SelectionTable` | calc.py:196-200 | that table has `C(2l+1, k) >= 1` entries with distinct keys that read back as their selections, in ascending lexicographic order; each selection is ascending with every `m` in `[-l, l]`, and each value is `force_occs` followed by one directive per chosen `m` |
| `ForceOccupations.OneUnfilled` | calc.py:195-201 | the same for the result of the call, with every value holding one directive per electron of the sub-shells |
| `ForceOccupations.OneUnfilledComplete` | calc.py:197-200 | every placement of the `k` electrons on distinct `m` in `[-l, l]` has its key |
| `ForceOccupations.DirectivesWellFormed` | calc.py:184-201 | every directive of every value has the fixed tags, spin 1 or 2, `m` in `[-l, l]` and the normaliser `nmaxocc` |
| `ForceOccupationCases.SingleElectronInP` | calc.py:176-201 | `["2p1"]` gives the keys `"-1"`, `"0"`, `"1"`, one directive each |
| `ForceOccupationCases.EmptyShell` | calc.py:195-201 | `["3d0"]` gives the single key `""` with no directive |
| `ForceOccupationCases.ClosedShell` | calc.py:193-194 | `["1s2"]` gives the key `"-"` with one directive per spin |
| `ForceOccupationCases.HalfFilledP` | calc.py:176-194 | `["2p3"]` gives only the key `"-"`: the `break` leaves no empty spin-2 sub-shell |
| `ForceOccupationCases.TwoOpenShells` | calc.py:192 | `["2p1", "3d1"]` fails the assertion |
| `ForceOccupationCases.NegativeOccupancy` | calc.py:172-197 | `["2p-1"]` parses to occupancy -1 and fails in `combinations` |
| `ForceOccupationCases.UnknownLetter` | calc.py:172 | `["1s2", "2x1"]` fails with the ValueError of `"spdf".index` |
| `Crystals.GetCrystal` | calc.py:204-226 | success exactly for A1/A2/A4/B1/B3 with enough species, an unbound-name failure exactly for any other code; lattice vectors by code; A1/A2 one atom of `species[0]` at the origin; A4 `species[0]` at the origin and at `(a/4, a/4, a/4)`; B1 `species[1]` at `(a/2, a/2, a/2)` and B3 at `(a/4, a/4, a/4)`, each beside `species[0]` at the origin |
| `Crystals.CellVolume` | calc.py:205-208 | the primitive cell has volume `a^3/2` (bcc) or `a^3/4` (fcc) |
| `Crystals.LatticeVectorLengths` | calc.py:205-208 | every lattice vector has squared length `3a^2/4` (bcc) or `a^2/2` (fcc) |
| `Crystals.SecondAtomPosition` | calc.py:211-225 | the second atom sits at half (B1) or a quarter (A4, B3) of the sum of the lattice vectors |
| `Crystals.BondLength` | calc.py:211-225 | in diamond and zinc blende the two atoms are `sqrt(3) a / 4` apart |
| `Chunks.Chunks` | calc.py:229-235 | the generator yields `ChunksOf(xs, n)`, and fails with the `islice` ValueError exactly for a size below 0 or above `sys.maxsize` |
| `Chunks.FlattenChunks` | calc.py:229-235 | the chunks put back together give the input |
| `Chunks.ChunkSizes` | calc.py:229-235 | every chunk is nonempty and has at most `n` items |
| `Chunks.ChunkAt` | calc.py:229-235 | chunk `i` is the slice from `n*i`, and every chunk but the last has exactly `n` items |
| `Chunks.ChunkCount` | calc.py:229-235 | there are `ceil(|xs| / n)` chunks |
| `ElementLabels.SplitAtCapitals` | calc.py:64 | `re.split(r'([A-Z])', s)` has two pieces per capital plus one, and its pieces concatenate to `s` |
| `ElementLabels.SplitAtCapitalsRuns` | calc.py:64 | the even pieces contain no capital |
| `ElementLabels.SplitAtCapitalsCapitals` | calc.py:64 | the odd pieces are single capitals |
| `ElementLabels.JoinEach` | calc.py:62-63 | `''.join(c)` for every chunk `c`: one string per chunk, in order, each the concatenation of that chunk |
| `ElementLabels.ElementSymbolsShape` | calc.py:62-65 | one symbol per capital of the label, each a capital followed by non-capitals |
| `ElementLabels.ElementSymbolsSpell` | calc.py:62-65 | the text before the first capital, then the symbols, spell the label |
| `ElementLabels.RockSaltSymbols` | calc.py:62-65 | `"NaCl"` gives `["Na", "Cl"]` |

## Left out

- `get_solids` (calc.py:51-141) is not modelled. It reads CSV tables, dispatches tasks to the Caf engine, scales lattices with `np.linspace` and assembles DataFrames: all I/O and an external engine. This includes its skip of the label `"Th"` and its noble-gas expansion of configurations (calc.py:110-111). That expansion depends on an external table and terminates only if the data allow it.
- `get_energy` and `get_volumes` (calc.py:144-166) are not modelled. They read solver output files and parse floating-point numbers.
- The constants `ev`, `default_tags`, `atom_tags` and `solids_tags` (calc.py:13-42) are static data with no behaviour.
- `mbdvv/app.py` is wiring of the task engine and is not part of this model.
- `geomlib.Crystal` and `Atom` are foreign library types. Here they are plain datatypes holding what `get_crystal` passes them.
- `Crystals.GetCrystal`: the lattice constant is an exact `real`. Python's floating-point rounding of `a/2` and `a/4` is not modelled.
- `Numerals.ParseInt`: models an optional sign followed by ASCII digits. Python's `int` also accepts surrounding whitespace, `_` between digits and non-ASCII decimal digits. The model rejects these.
- `Numerals.ParseInt`: CPython 3.11 and later refuse strings of more than 4300 digits with ValueError, a limit that depends on the version and its configuration. The model reads numerals of any length.
- `ForceOccupations.NegativeUnfilled`: `combinations` takes its size as a `Py_ssize_t`. So an occupancy below `-(sys.maxsize + 1)` raises OverflowError rather than ValueError, and the model reports both as `NegativeSelection`.
- `ForceOccupations.AmbiguousIff`: the model treats the `assert` at calc.py:192 as always active. Under `python -O` it is removed, and two sub-shells that are not full then silently give the table of the first.
- `Shells.ParseShell`: the principal quantum number is read from one ASCII digit. Python's `int(shell[0])` also accepts other Unicode decimal digits.
- `Chunks.Chunks`: `MaxSize` is `sys.maxsize` of a 64-bit CPython; on a 32-bit build the bound is `2^31 - 1`.
- `Chunks.Chunks`: the generator is modelled as the list it yields when run to the end. Its laziness is not modelled, and neither is the point at which Python raises the `islice` ValueError: the first `next`, not the call.
- `Crystals.GetCrystal`: an unknown code makes Python raise `UnboundLocalError` only at the return. It raises before any lattice vector is used, so the model returns `UnsupportedGroup` and nothing else.
