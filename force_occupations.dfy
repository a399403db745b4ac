/**
 * The force-occupation enumerator of calc.py (`get_force_occs`): from an
 * electron configuration, the solver directives that pin every filled spin
 * sub-shell, and, when one spin sub-shell is partly filled, one set of
 * directives per way of placing its electrons on magnetic quantum numbers.
 */
module ForceOccupations {
  import opened Wrappers
  import opened Numerals
  import opened Delimited
  import opened Combinatorics
  import opened Shells

  /** A shell restricted to one spin channel (1 = up, 2 = down). */
  datatype SpinShell = SpinShell(n: nat, l: nat, spin: nat, occ: int)

  /**
   * One force-occupation line for the solver, the tuple
   * `(1, spin, 'atomic', n, l, m, 1, nmaxocc)` with its fields named.
   */
  datatype Directive = Directive(
    constraint: int, spin: nat, frame: string, n: nat, l: nat, m: int, occupation: int, norm: int)

  /** One key of the result dictionary and the directives stored under it. */
  datatype Entry = Entry(key: string, directives: seq<Directive>)

  datatype Error =
    | ParseFailed(reason: ParseError)  // a token could not be read
    | AmbiguousConfiguration           // `assert len(unfilled) <= 1` fails
    | NegativeSelection                // `combinations(..., occ)` with occ < 0

  /** Number of orbitals, and so of electrons per spin, in a shell of azimuthal number l. */
  function Degeneracy(l: nat): nat {
    2 * l + 1
  }

  /** The magnetic quantum numbers `range(-l, l+1)`. */
  function MRange(l: nat): (r: seq<int>)
    ensures |r| == Degeneracy(l) && Increasing(r)
    ensures forall i :: 0 <= i < |r| ==> r[i] == i - l
  {
    Range(-(l as int), l + 1)
  }

  /** `nmaxocc`: the orbitals of all parsed shells, both spins counted once. */
  function NMaxOcc(shells: seq<Shell>): int {
    if shells == [] then 0 else NMaxOcc(shells[..|shells| - 1]) + Degeneracy(shells[|shells| - 1].l)
  }

  /** Total electrons held by a list of spin sub-shells. */
  function Occupancy(ss: seq<SpinShell>): int {
    if ss == [] then 0 else Occupancy(ss[..|ss| - 1]) + ss[|ss| - 1].occ
  }

  /** Electrons of the shells that fit into their two spin channels. */
  function Capped(shells: seq<Shell>): int {
    if shells == [] then 0
    else Capped(shells[..|shells| - 1]) + Min(shells[|shells| - 1].occ, 2 * Degeneracy(shells[|shells| - 1].l))
  }

  /**
   * The spin loop for one shell: spin 1 takes what fits, and a spin-2
   * sub-shell exists only when electrons are left after spin 1.
   */
  function SplitShell(s: Shell): (r: seq<SpinShell>)
    ensures |r| == 1 || |r| == 2
    ensures forall j :: 0 <= j < |r| ==>
      r[j].n == s.n && r[j].l == s.l && r[j].spin == j + 1 && r[j].occ <= Degeneracy(s.l)
    ensures s.occ >= 0 ==> forall j :: 0 <= j < |r| ==> 0 <= r[j].occ
    ensures |r| == 2 <==> s.occ > Degeneracy(s.l)
    ensures |r| == 2 ==> r[0].occ == Degeneracy(s.l)
    ensures s.occ >= 0 ==> Occupancy(r) == Min(s.occ, 2 * Degeneracy(s.l))
    ensures s.occ < 0 ==> r == [SpinShell(s.n, s.l, 1, s.occ)]
  {
    var up := Min(s.occ, Degeneracy(s.l));
    var rest := s.occ - up;
    var r := if rest == 0 then [SpinShell(s.n, s.l, 1, up)]
      else [SpinShell(s.n, s.l, 1, up), SpinShell(s.n, s.l, 2, Min(rest, Degeneracy(s.l)))];
    assert [r[0]][..0] == [];
    assert Occupancy([r[0]]) == r[0].occ;
    assert |r| == 2 ==> r[..1] == [r[0]] && Occupancy(r) == r[0].occ + r[1].occ;
    r
  }

  /** `spin_shells`: the spin sub-shells of every shell, shell after shell. */
  function SpinSplit(shells: seq<Shell>): (r: seq<SpinShell>)
    ensures |shells| <= |r| <= 2 * |shells|
    ensures forall j :: 0 <= j < |r| ==> r[j].occ <= Degeneracy(r[j].l) && (r[j].spin == 1 || r[j].spin == 2)
    ensures (forall i :: 0 <= i < |shells| ==> shells[i].occ >= 0) ==>
      (forall j :: 0 <= j < |r| ==> r[j].occ >= 0) && Occupancy(r) == Capped(shells)
  {
    if shells == [] then []
    else
      var front := shells[..|shells| - 1];
      var last := shells[|shells| - 1];
      assert forall i :: 0 <= i < |front| ==> front[i] == shells[i];
      OccupancyAppend(SpinSplit(front), SplitShell(last));
      SpinSplit(front) + SplitShell(last)
  }

  predicate IsUnfilled(s: SpinShell) {
    s.occ < Degeneracy(s.l)
  }

  /** `unfilled`: the positions of the sub-shells that are not full, ascending. */
  function UnfilledIndices(ss: seq<SpinShell>): (r: seq<nat>)
    ensures forall j :: 0 <= j < |r| ==> r[j] < |ss| && IsUnfilled(ss[r[j]])
    ensures forall i :: 0 <= i < |ss| && IsUnfilled(ss[i]) ==> i in r
    ensures forall a, b :: 0 <= a < b < |r| ==> r[a] < r[b]
  {
    if ss == [] then []
    else
      var front := ss[..|ss| - 1];
      assert forall i :: 0 <= i < |front| ==> front[i] == ss[i];
      UnfilledIndices(front) + if IsUnfilled(ss[|ss| - 1]) then [|ss| - 1] else []
  }

  function MakeDirective(s: SpinShell, m: int, norm: int): Directive {
    Directive(1, s.spin, "atomic", s.n, s.l, m, 1, norm)
  }

  /** One directive per magnetic quantum number in `ms`, in that order. */
  function Directives(s: SpinShell, ms: seq<int>, norm: int): (r: seq<Directive>)
    ensures |r| == |ms|
    ensures forall j :: 0 <= j < |r| ==> r[j] == MakeDirective(s, ms[j], norm)
  {
    seq(|ms|, j requires 0 <= j < |ms| => MakeDirective(s, ms[j], norm))
  }

  /** A directive the solver accepts: fixed tags, its `m` inside `[-l, l]`, the given normaliser. */
  predicate WellFormed(d: Directive, norm: int) {
    && d.constraint == 1 && d.frame == "atomic" && d.occupation == 1 && d.norm == norm
    && (d.spin == 1 || d.spin == 2)
    && -(d.l as int) <= d.m <= d.l
  }

  /** A selection within `[-l, l]` of a sub-shell of spin 1 or 2 gives well-formed directives only. */
  lemma SelectionDirectivesWellFormed(s: SpinShell, ms: seq<int>, norm: int)
    requires s.spin == 1 || s.spin == 2
    requires forall j :: 0 <= j < |ms| ==> -(s.l as int) <= ms[j] <= s.l
    ensures forall j :: 0 <= j < |Directives(s, ms, norm)| ==> WellFormed(Directives(s, ms, norm)[j], norm)
  {
  }

  /** Orbitals of the full sub-shells. */
  function FilledCount(ss: seq<SpinShell>): nat {
    if ss == [] then 0
    else FilledCount(ss[..|ss| - 1]) + if IsUnfilled(ss[|ss| - 1]) then 0 else Degeneracy(ss[|ss| - 1].l)
  }

  /** `force_occs`: for each full sub-shell in turn, one directive per `m = -l..l`. */
  function FilledDirectives(ss: seq<SpinShell>, norm: int): (r: seq<Directive>)
    requires forall j :: 0 <= j < |ss| ==> ss[j].spin == 1 || ss[j].spin == 2
    ensures |r| == FilledCount(ss)
    ensures forall j :: 0 <= j < |r| ==> WellFormed(r[j], norm)
  {
    if ss == [] then []
    else
      var last := ss[|ss| - 1];
      FilledDirectives(ss[..|ss| - 1], norm) + if IsUnfilled(last) then [] else Directives(last, MRange(last.l), norm)
  }

  /** `map(str, ms)`. */
  function IntStrings(ms: seq<int>): (r: seq<string>)
    ensures |r| == |ms|
    ensures forall i :: 0 <= i < |ms| ==> r[i] == IntToString(ms[i])
  {
    if ms == [] then [] else [IntToString(ms[0])] + IntStrings(ms[1..])
  }

  /** `','.join(map(str, ms))`. */
  function Label(ms: seq<int>): string {
    Join(IntStrings(ms), ',')
  }

  /** `int(x)` for every piece, or `None` if one fails. */
  function ParseAll(parts: seq<string>): (r: Option<seq<int>>)
    ensures r.Some? ==> |r.value| == |parts|
  {
    if parts == [] then Some([])
    else
      match (ParseInt(parts[0]), ParseAll(parts[1..]))
      case (Some(x), Some(xs)) => Some([x] + xs)
      case _ => None
  }

  /** Reads a label back into its magnetic quantum numbers. */
  function ParseLabel(s: string): Option<seq<int>> {
    if s == "" then Some([]) else ParseAll(Split(s, ','))
  }

  /**
   * Python's `d[k] = v` on an insertion-ordered dictionary: an existing key
   * keeps its place and gets the new value, a new key goes last.
   */
  function Put(t: seq<Entry>, k: string, v: seq<Directive>): (r: seq<Entry>)
    ensures (forall i :: 0 <= i < |t| ==> t[i].key != k) ==> r == t + [Entry(k, v)]
    ensures forall i :: 0 <= i < |t| && t[i].key == k ==> |r| == |t| && Entry(k, v) in r
    ensures forall i :: FirstKey(t, k, i) ==> r == t[i := Entry(k, v)]
  {
    if t == [] then [Entry(k, v)]
    else if t[0].key == k then [Entry(k, v)] + t[1..]
    else
      FirstKeyTail(t, k);
      [t[0]] + Put(t[1..], k, v)
  }

  /** `t[i]` is the first entry of `t` with key `k`. */
  predicate FirstKey(t: seq<Entry>, k: string, i: int) {
    && 0 <= i < |t| && t[i].key == k
    && forall j :: 0 <= j < i ==> t[j].key != k
  }

  /** Past a first entry with another key, the first `k` moves one place forward. */
  lemma FirstKeyTail(t: seq<Entry>, k: string)
    requires t != [] && t[0].key != k
    ensures forall i :: FirstKey(t, k, i) ==> 0 < i && FirstKey(t[1..], k, i - 1)
  {
    forall i | FirstKey(t, k, i)
      ensures 0 < i && FirstKey(t[1..], k, i - 1)
    {
      assert forall j :: 0 <= j < i - 1 ==> t[1..][j] == t[j + 1];
    }
  }

  /** One entry per selection: its label, the full-shell directives, then one directive per chosen `m`. */
  function Table(combos: seq<seq<int>>, filled: seq<Directive>, u: SpinShell, norm: int): (r: seq<Entry>)
    ensures |r| == |combos|
    ensures forall j :: 0 <= j < |r| ==> r[j] == Entry(Label(combos[j]), filled + Directives(u, combos[j], norm))
  {
    seq(|combos|, j requires 0 <= j < |combos| => Entry(Label(combos[j]), filled + Directives(u, combos[j], norm)))
  }

  /** What `get_force_occs(conf)` returns, or the error it raises. */
  function ForceOccs(conf: seq<string>): Result<seq<Entry>, Error> {
    match ParseConf(conf)
    case Failure(e) => Failure(ParseFailed(e))
    case Success(shells) =>
      var norm := NMaxOcc(shells);
      var spins := SpinSplit(shells);
      var unfilled := UnfilledIndices(spins);
      var filled := FilledDirectives(spins, norm);
      if |unfilled| > 1 then Failure(AmbiguousConfiguration)
      else if |unfilled| == 0 then Success([Entry("-", filled)])
      else
        var u := spins[unfilled[0]];
        if u.occ < 0 then Failure(NegativeSelection)
        else Success(Table(Combinations(MRange(u.l), u.occ), filled, u, norm))
  }

  /**
   * `get_force_occs`, loop for loop; each stage of the source is one
   * method below, proved against the function that specifies it.
   */
  method GetForceOccs(conf: seq<string>) returns (r: Result<seq<Entry>, Error>)
    ensures r == ForceOccs(conf)
  {
    var parsed := ParseTokens(conf);
    if parsed.Failure? {
      return Failure(ParseFailed(parsed.error));
    }
    var shells := parsed.value;
    var nmaxocc := SumOrbitals(shells);
    var spinShells := SplitSpins(shells);
    var forceOccs, unfilled := Classify(spinShells, nmaxocc);
    if |unfilled| > 1 {
      return Failure(AmbiguousConfiguration);
    }
    if |unfilled| == 0 {
      return Success([Entry("-", forceOccs)]);
    }
    var u := spinShells[unfilled[0]];
    if u.occ < 0 {
      return Failure(NegativeSelection);
    }
    var allForceOccs := Enumerate(forceOccs, u, nmaxocc);
    return Success(allForceOccs);
  }

  /** The comprehension that parses the tokens (calc.py lines 171-174). */
  method ParseTokens(conf: seq<string>) returns (r: Result<seq<Shell>, ParseError>)
    ensures r == ParseConf(conf)
  {
    var shells: seq<Shell> := [];
    for i := 0 to |conf|
      invariant ParseConf(conf[..i]) == Success(shells)
    {
      assert conf[..i + 1][..i] == conf[..i];
      var parsed := ParseShell(conf[i]);
      if parsed.Failure? {
        ParseConfTokens(conf[..i]);
        ParseConfFirstError(conf, i);
        return Failure(parsed.error);
      }
      shells := shells + [parsed.value];
    }
    assert conf[..|conf|] == conf;
    return Success(shells);
  }

  /** `nmaxocc = sum(2*l+1 for n, l, occ in shells)`. */
  method SumOrbitals(shells: seq<Shell>) returns (nmaxocc: int)
    ensures nmaxocc == NMaxOcc(shells)
  {
    nmaxocc := 0;
    for i := 0 to |shells|
      invariant nmaxocc == NMaxOcc(shells[..i])
    {
      assert shells[..i + 1][..i] == shells[..i];
      nmaxocc := nmaxocc + 2 * shells[i].l + 1;
    }
    assert shells[..|shells|] == shells;
  }

  /** The loop that fills `spin_shells`. */
  method SplitSpins(shells: seq<Shell>) returns (spinShells: seq<SpinShell>)
    ensures spinShells == SpinSplit(shells)
  {
    spinShells := [];
    for i := 0 to |shells|
      invariant spinShells == SpinSplit(shells[..i])
    {
      SpinSplitStep(shells, i);
      spinShells := AppendSpins(spinShells, shells[i]);
    }
    assert shells[..|shells|] == shells;
  }

  lemma SpinSplitStep(shells: seq<Shell>, i: nat)
    requires i < |shells|
    ensures SpinSplit(shells[..i + 1]) == SpinSplit(shells[..i]) + SplitShell(shells[i])
  {
    assert shells[..i + 1][..i] == shells[..i] && shells[..i + 1][i] == shells[i];
  }

  /** `for spin in (1, 2): ...` for one shell, with its early `break`. */
  method AppendSpins(spinShells: seq<SpinShell>, sh: Shell) returns (r: seq<SpinShell>)
    ensures r == spinShells + SplitShell(sh)
  {
    r := spinShells;
    var occ := sh.occ;
    var parts := SplitShell(sh);
    for spin := 1 to 3
      invariant spin == 1 ==> r == spinShells && occ == sh.occ
      invariant spin == 2 ==> |parts| == 2 && r == spinShells + [parts[0]] && occ == sh.occ - parts[0].occ
      invariant spin == 3 ==> r == spinShells + parts
    {
      var spinOcc := Min(occ, 2 * sh.l + 1);
      occ := occ - spinOcc;
      r := r + [SpinShell(sh.n, sh.l, spin, spinOcc)];
      if occ == 0 {
        break;
      }
    }
  }

  /** The loop that collects `force_occs` and `unfilled`. */
  method Classify(spinShells: seq<SpinShell>, nmaxocc: int) returns (forceOccs: seq<Directive>, unfilled: seq<nat>)
    requires forall j :: 0 <= j < |spinShells| ==> spinShells[j].spin == 1 || spinShells[j].spin == 2
    ensures forceOccs == FilledDirectives(spinShells, nmaxocc)
    ensures unfilled == UnfilledIndices(spinShells)
  {
    forceOccs, unfilled := [], [];
    for iShell := 0 to |spinShells|
      invariant forceOccs == FilledDirectives(spinShells[..iShell], nmaxocc)
      invariant unfilled == UnfilledIndices(spinShells[..iShell])
    {
      var s := spinShells[iShell];
      ClassifyStep(spinShells, iShell, nmaxocc);
      if s.occ < 2 * s.l + 1 {
        unfilled := unfilled + [iShell];
        continue;
      }
      forceOccs := AppendShell(forceOccs, s, nmaxocc);
    }
    assert spinShells[..|spinShells|] == spinShells;
  }

  /** `for m in range(-l, l+1): force_occs.append(...)` for one full sub-shell. */
  method AppendShell(forceOccs: seq<Directive>, s: SpinShell, nmaxocc: int) returns (r: seq<Directive>)
    ensures r == forceOccs + Directives(s, MRange(s.l), nmaxocc)
  {
    r := forceOccs;
    for m := -(s.l as int) to s.l + 1
      invariant r == forceOccs + Directives(s, Range(-(s.l as int), m), nmaxocc)
    {
      DirectivesStep(s, -(s.l as int), m, nmaxocc);
      r := r + [MakeDirective(s, m, nmaxocc)];
    }
  }

  /** The loop over `combinations(range(-l, l+1), occ)` that fills `all_force_occs`. */
  method Enumerate(forceOccs: seq<Directive>, u: SpinShell, nmaxocc: int) returns (allForceOccs: seq<Entry>)
    requires u.occ >= 0
    ensures allForceOccs == Table(Combinations(MRange(u.l), u.occ), forceOccs, u, nmaxocc)
  {
    var combos := Combinations(Range(-(u.l as int), u.l + 1), u.occ);
    CombinationsDistinct(Range(-(u.l as int), u.l + 1), u.occ);
    allForceOccs := [];
    for j := 0 to |combos|
      invariant allForceOccs == Table(combos[..j], forceOccs, u, nmaxocc)
    {
      var ms := combos[j];
      EnumerateStep(combos, j, forceOccs, u, nmaxocc);
      allForceOccs := Put(allForceOccs, Label(ms), forceOccs + Directives(u, ms, nmaxocc));
    }
    assert combos[..|combos|] == combos;
  }

  /** One pass of the selection loop adds the entry of selection `j` at the end. */
  lemma EnumerateStep(combos: seq<seq<int>>, j: nat, filled: seq<Directive>, u: SpinShell, norm: int)
    requires j < |combos|
    requires forall a, b :: 0 <= a < b < |combos| ==> combos[a] != combos[b]
    ensures Put(Table(combos[..j], filled, u, norm), Label(combos[j]), filled + Directives(u, combos[j], norm)) ==
      Table(combos[..j + 1], filled, u, norm)
  {
    FreshKey(combos, j, filled, u, norm);
    TableStep(combos, j, filled, u, norm);
  }

  lemma ClassifyStep(ss: seq<SpinShell>, i: nat, norm: int)
    requires i < |ss|
    requires forall j :: 0 <= j < |ss| ==> ss[j].spin == 1 || ss[j].spin == 2
    ensures FilledDirectives(ss[..i + 1], norm) ==
      FilledDirectives(ss[..i], norm) + if IsUnfilled(ss[i]) then [] else Directives(ss[i], MRange(ss[i].l), norm)
    ensures UnfilledIndices(ss[..i + 1]) == UnfilledIndices(ss[..i]) + if IsUnfilled(ss[i]) then [i] else []
  {
    assert ss[..i + 1][..i] == ss[..i];
  }

  lemma DirectivesStep(s: SpinShell, lo: int, m: int, norm: int)
    requires lo <= m
    ensures Directives(s, Range(lo, m + 1), norm) == Directives(s, Range(lo, m), norm) + [MakeDirective(s, m, norm)]
  {
    assert Range(lo, m + 1) == Range(lo, m) + [m];
  }

  lemma TableStep(combos: seq<seq<int>>, j: nat, filled: seq<Directive>, u: SpinShell, norm: int)
    requires j < |combos|
    ensures Table(combos[..j + 1], filled, u, norm) ==
      Table(combos[..j], filled, u, norm) + [Entry(Label(combos[j]), filled + Directives(u, combos[j], norm))]
  {
    assert combos[..j + 1] == combos[..j] + [combos[j]];
  }

  /** Earlier selections have other labels, so `all_force_occs[label] = ...` always adds a key. */
  lemma FreshKey(combos: seq<seq<int>>, j: nat, filled: seq<Directive>, u: SpinShell, norm: int)
    requires j < |combos|
    requires forall a, b :: 0 <= a < b < |combos| ==> combos[a] != combos[b]
    ensures forall i :: 0 <= i < j ==> Table(combos[..j], filled, u, norm)[i].key != Label(combos[j])
  {
    forall i | 0 <= i < j
      ensures Table(combos[..j], filled, u, norm)[i].key != Label(combos[j])
    {
      if Label(combos[i]) == Label(combos[j]) {
        LabelInjective(combos[i], combos[j]);
      }
    }
  }

  // ---------------------------------------------------------------------
  // Properties of the specification.

  lemma {:induction false} OccupancyAppend(a: seq<SpinShell>, b: seq<SpinShell>)
    ensures Occupancy(a + b) == Occupancy(a) + Occupancy(b)
  {
    if b != [] {
      assert (a + b)[..|a + b| - 1] == a + b[..|b| - 1];
      OccupancyAppend(a, b[..|b| - 1]);
    } else {
      assert a + b == a;
    }
  }

  /** The sub-shells of a longer configuration extend those of its start, in input order. */
  lemma {:induction false} SpinSplitAppend(a: seq<Shell>, b: seq<Shell>)
    ensures SpinSplit(a + b) == SpinSplit(a) + SpinSplit(b)
  {
    if b == [] {
      assert a + b == a;
    } else {
      var front, last := b[..|b| - 1], b[|b| - 1];
      assert (a + b)[..|a + b| - 1] == a + front && (a + b)[|a + b| - 1] == last;
      assert SpinSplit(a + b) == SpinSplit(a + front) + SplitShell(last);
      assert SpinSplit(b) == SpinSplit(front) + SplitShell(last);
      SpinSplitAppend(a, front);
      assert SpinSplit(a) + SpinSplit(front) + SplitShell(last) == SpinSplit(a) + (SpinSplit(front) + SplitShell(last));
    }
  }

  /** A configuration of one shell has exactly that shell's sub-shells. */
  lemma SplitOne(sh: Shell, ss: seq<SpinShell>)
    requires SplitShell(sh) == ss
    ensures SpinSplit([sh]) == ss
  {
    assert [sh][..0] == [];
  }

  lemma ConcatAssoc<T>(x: seq<T>, y: seq<T>, z: seq<T>)
    ensures x + y + z == x + (y + z)
  {
  }

  /** The last sub-shell's directives come last. */
  lemma FilledDirectivesLast(ss: seq<SpinShell>, norm: int)
    requires ss != [] && forall j :: 0 <= j < |ss| ==> ss[j].spin == 1 || ss[j].spin == 2
    ensures FilledDirectives(ss, norm) == FilledDirectives(ss[..|ss| - 1], norm) +
      if IsUnfilled(ss[|ss| - 1]) then [] else Directives(ss[|ss| - 1], MRange(ss[|ss| - 1].l), norm)
  {
  }

  /** `force_occs` of a longer list of sub-shells extends that of its start: sub-shell order is kept. */
  lemma {:induction false} FilledDirectivesAppend(a: seq<SpinShell>, b: seq<SpinShell>, norm: int)
    requires forall j :: 0 <= j < |a| ==> a[j].spin == 1 || a[j].spin == 2
    requires forall j :: 0 <= j < |b| ==> b[j].spin == 1 || b[j].spin == 2
    ensures FilledDirectives(a + b, norm) == FilledDirectives(a, norm) + FilledDirectives(b, norm)
  {
    if b == [] {
      assert a + b == a;
    } else {
      var front, last := b[..|b| - 1], b[|b| - 1];
      assert (a + b)[..|a + b| - 1] == a + front && (a + b)[|a + b| - 1] == last;
      var tail := if IsUnfilled(last) then [] else Directives(last, MRange(last.l), norm);
      FilledDirectivesLast(a + b, norm);
      FilledDirectivesLast(b, norm);
      FilledDirectivesAppend(a, front, norm);
      ConcatAssoc(FilledDirectives(a, norm), FilledDirectives(front, norm), tail);
    }
  }

  /** A full sub-shell contributes 2l+1 directives, directive `j` for `m = j - l`; one not full contributes none. */
  lemma SubShellDirectives(s: SpinShell, norm: int)
    requires s.spin == 1 || s.spin == 2
    ensures IsUnfilled(s) ==> FilledDirectives([s], norm) == []
    ensures !IsUnfilled(s) ==>
      && |FilledDirectives([s], norm)| == Degeneracy(s.l)
      && forall j :: 0 <= j < Degeneracy(s.l) ==> FilledDirectives([s], norm)[j] == MakeDirective(s, j - s.l, norm)
  {
    assert [s][..0] == [] && [s][0] == s;
  }

  /** A label reads back into the magnetic quantum numbers it was made from. */
  lemma LabelRoundTrip(ms: seq<int>)
    ensures ParseLabel(Label(ms)) == Some(ms)
  {
    var parts := IntStrings(ms);
    if ms != [] {
      assert |Label(ms)| > 0 by {
        if |ms| > 1 {
          assert Label(ms) == parts[0] + [','] + Join(parts[1..], ',');
        }
      }
      forall i | 0 <= i < |parts|
        ensures ',' !in parts[i]
      {
        var s := IntToString(ms[i]);
        assert forall j :: 0 <= j < |s| ==> s[j] != ',';
      }
      SplitJoin(parts, ',');
      ParseAllOfStrings(ms);
    }
  }

  lemma {:induction false} ParseAllOfStrings(ms: seq<int>)
    ensures ParseAll(IntStrings(ms)) == Some(ms)
  {
    if ms != [] {
      var parts := IntStrings(ms);
      assert parts == [IntToString(ms[0])] + IntStrings(ms[1..]);
      ParseIntOfIntToString(ms[0]);
      ParseAllOfStrings(ms[1..]);
      ParseAllCons(parts, ms[0], ms[1..]);
      assert ms == [ms[0]] + ms[1..];
    }
  }

  lemma ParseAllCons(parts: seq<string>, x: int, xs: seq<int>)
    requires parts != [] && ParseInt(parts[0]) == Some(x) && ParseAll(parts[1..]) == Some(xs)
    ensures ParseAll(parts) == Some([x] + xs)
  {
  }

  /** Different selections get different labels. */
  lemma LabelInjective(a: seq<int>, b: seq<int>)
    requires Label(a) == Label(b)
    ensures a == b
  {
    LabelRoundTrip(a);
    LabelRoundTrip(b);
  }

  /** Electrons in the sub-shells that are not full. */
  function UnfilledOccupancy(ss: seq<SpinShell>): int {
    if ss == [] then 0
    else UnfilledOccupancy(ss[..|ss| - 1]) + if IsUnfilled(ss[|ss| - 1]) then ss[|ss| - 1].occ else 0
  }

  /** A full sub-shell holds one electron per orbital, so the full ones hold FilledCount electrons. */
  lemma {:induction false} OccupancySplit(ss: seq<SpinShell>)
    requires forall j :: 0 <= j < |ss| ==> ss[j].occ <= Degeneracy(ss[j].l)
    ensures Occupancy(ss) == FilledCount(ss) + UnfilledOccupancy(ss)
  {
    if ss != [] {
      var front := ss[..|ss| - 1];
      assert forall j :: 0 <= j < |front| ==> front[j] == ss[j];
      OccupancySplit(front);
    }
  }

  lemma {:induction false} UnfilledOccupancyOne(ss: seq<SpinShell>, i: nat)
    requires i < |ss|
    requires forall j :: 0 <= j < |ss| && j != i ==> !IsUnfilled(ss[j])
    ensures UnfilledOccupancy(ss) == if IsUnfilled(ss[i]) then ss[i].occ else 0
  {
    var front := ss[..|ss| - 1];
    assert forall j :: 0 <= j < |front| ==> front[j] == ss[j];
    if i < |front| {
      UnfilledOccupancyOne(front, i);
    } else {
      UnfilledOccupancyNone(front);
    }
  }

  lemma {:induction false} UnfilledOccupancyNone(ss: seq<SpinShell>)
    requires forall j :: 0 <= j < |ss| ==> !IsUnfilled(ss[j])
    ensures UnfilledOccupancy(ss) == 0
  {
    if ss != [] {
      var front := ss[..|ss| - 1];
      assert forall j :: 0 <= j < |front| ==> front[j] == ss[j];
      UnfilledOccupancyNone(front);
    }
  }

  /** Two different sub-shells are not full. */
  predicate TwoUnfilled(ss: seq<SpinShell>) {
    exists i, j :: 0 <= i < j < |ss| && IsUnfilled(ss[i]) && IsUnfilled(ss[j])
  }

  /** Sub-shell `i` is the only one that is not full. */
  predicate OnlyUnfilled(ss: seq<SpinShell>, i: nat) {
    && i < |ss| && IsUnfilled(ss[i])
    && forall j :: 0 <= j < |ss| && j != i ==> !IsUnfilled(ss[j])
  }

  /** At least two positions are collected exactly when two sub-shells are not full. */
  lemma TwoUnfilledIndices(ss: seq<SpinShell>)
    ensures |UnfilledIndices(ss)| > 1 <==> TwoUnfilled(ss)
  {
    var r := UnfilledIndices(ss);
    if |r| > 1 {
      assert 0 <= r[0] < r[1] < |ss| && IsUnfilled(ss[r[0]]) && IsUnfilled(ss[r[1]]);
    }
    if TwoUnfilled(ss) {
      var i, j :| 0 <= i < j < |ss| && IsUnfilled(ss[i]) && IsUnfilled(ss[j]);
      UnfilledPair(ss, i, j);
    }
  }

  lemma UnfilledPair(ss: seq<SpinShell>, i: nat, j: nat)
    requires i < j < |ss| && IsUnfilled(ss[i]) && IsUnfilled(ss[j])
    ensures |UnfilledIndices(ss)| > 1
  {
    var r := UnfilledIndices(ss);
    assert i in r && j in r;
    var a :| 0 <= a < |r| && r[a] == i;
    var b :| 0 <= b < |r| && r[b] == j;
    assert a != b;
  }

  /** A token that cannot be parsed makes the whole call fail with that token's error. */
  lemma ParseFailure(conf: seq<string>)
    requires ParseConf(conf).Failure?
    ensures ForceOccs(conf) == Failure(ParseFailed(ParseConf(conf).error))
  {
  }

  /** After parsing, the enumerator fails exactly when two sub-shells or more are not full. */
  lemma AmbiguousIff(conf: seq<string>, shells: seq<Shell>)
    requires ParseConf(conf) == Success(shells)
    ensures ForceOccs(conf) == Failure(AmbiguousConfiguration) <==> TwoUnfilled(SpinSplit(shells))
  {
    TwoUnfilledIndices(SpinSplit(shells));
  }

  /**
   * With every sub-shell full the result is the single key "-", holding
   * one directive per electron of the sub-shells.
   */
  lemma AllFilled(conf: seq<string>, shells: seq<Shell>)
    requires ParseConf(conf) == Success(shells)
    requires forall j :: 0 <= j < |SpinSplit(shells)| ==> !IsUnfilled(SpinSplit(shells)[j])
    ensures ForceOccs(conf) == Success([Entry("-", FilledDirectives(SpinSplit(shells), NMaxOcc(shells)))])
    ensures |FilledDirectives(SpinSplit(shells), NMaxOcc(shells))| == Occupancy(SpinSplit(shells))
  {
    var spins := SpinSplit(shells);
    NoUnfilledIndices(spins);
    OccupancySplit(spins);
    UnfilledOccupancyNone(spins);
  }

  lemma {:induction false} NoUnfilledIndices(ss: seq<SpinShell>)
    requires forall j :: 0 <= j < |ss| ==> !IsUnfilled(ss[j])
    ensures UnfilledIndices(ss) == []
  {
    if ss != [] {
      var front := ss[..|ss| - 1];
      assert forall j :: 0 <= j < |front| ==> front[j] == ss[j];
      NoUnfilledIndices(front);
    }
  }

  lemma {:induction false} OnlyUnfilledIndices(ss: seq<SpinShell>, i: nat)
    requires OnlyUnfilled(ss, i)
    ensures UnfilledIndices(ss) == [i]
  {
    var front := ss[..|ss| - 1];
    assert forall j :: 0 <= j < |front| ==> front[j] == ss[j];
    if i < |front| {
      OnlyUnfilledIndices(front, i);
    } else {
      NoUnfilledIndices(front);
    }
  }

  /** With exactly one sub-shell not full, the result is the table over its selections. */
  lemma OneUnfilledTable(conf: seq<string>, shells: seq<Shell>, i: nat)
    requires ParseConf(conf) == Success(shells)
    requires OnlyUnfilled(SpinSplit(shells), i) && SpinSplit(shells)[i].occ >= 0
    ensures ForceOccs(conf) == Success(Table(
      Combinations(MRange(SpinSplit(shells)[i].l), SpinSplit(shells)[i].occ),
      FilledDirectives(SpinSplit(shells), NMaxOcc(shells)), SpinSplit(shells)[i], NMaxOcc(shells)))
  {
    OnlyUnfilledIndices(SpinSplit(shells), i);
  }

  /**
   * With exactly one sub-shell not full, `combinations` raises ValueError
   * exactly when its electron count is negative (a token such as "2p-1").
   */
  lemma NegativeUnfilled(conf: seq<string>, shells: seq<Shell>, i: nat)
    requires ParseConf(conf) == Success(shells)
    requires OnlyUnfilled(SpinSplit(shells), i)
    ensures ForceOccs(conf) == Failure(NegativeSelection) <==> SpinSplit(shells)[i].occ < 0
  {
    OnlyUnfilledIndices(SpinSplit(shells), i);
  }

  /**
   * The table over the k-selections of `m` in `[-l, l]`: C(2l+1, k) entries
   * with distinct keys that read back as their selections, in ascending
   * lexicographic order; each selection is ascending and within range, and
   * each entry is `filled` followed by one directive per chosen `m`.
   */
  lemma SelectionTable(u: SpinShell, filled: seq<Directive>, norm: int)
    requires 0 <= u.occ <= Degeneracy(u.l)
    ensures
      var combos := Combinations(MRange(u.l), u.occ);
      var t := Table(combos, filled, u, norm);
      && |t| == |combos| == Binomial(Degeneracy(u.l), u.occ) >= 1
      && (forall a, b :: 0 <= a < b < |t| ==> t[a].key != t[b].key && LexLess(combos[a], combos[b]))
      && (forall a :: 0 <= a < |t| ==>
        && ParseLabel(t[a].key) == Some(combos[a])
        && |combos[a]| == u.occ && Increasing(combos[a])
        && (forall j :: 0 <= j < |combos[a]| ==> -(u.l as int) <= combos[a][j] <= u.l)
        && t[a].directives == filled + Directives(u, combos[a], norm)
        && |t[a].directives| == |filled| + u.occ)
  {
    var combos := Combinations(MRange(u.l), u.occ);
    var t := Table(combos, filled, u, norm);
    BinomialPositive(Degeneracy(u.l), u.occ);
    CombinationsSorted(MRange(u.l), u.occ);
    CombinationsIncreasing(MRange(u.l), u.occ);
    SelectionKeys(combos, filled, u, norm);
    CombinationsElements(MRange(u.l), u.occ);
    forall a | 0 <= a < |t|
      ensures forall j :: 0 <= j < |combos[a]| ==> -(u.l as int) <= combos[a][j] <= u.l
    {
      forall j | 0 <= j < |combos[a]|
        ensures -(u.l as int) <= combos[a][j] <= u.l
      {
        assert combos[a][j] in MRange(u.l);
      }
    }
  }

  /** Keys of a table over lexicographically ordered selections are distinct and read back. */
  lemma SelectionKeys(combos: seq<seq<int>>, filled: seq<Directive>, u: SpinShell, norm: int)
    requires forall a, b :: 0 <= a < b < |combos| ==> LexLess(combos[a], combos[b])
    ensures var t := Table(combos, filled, u, norm);
      && (forall a, b :: 0 <= a < b < |t| ==> t[a].key != t[b].key)
      && (forall a :: 0 <= a < |t| ==> ParseLabel(t[a].key) == Some(combos[a]))
  {
    var t := Table(combos, filled, u, norm);
    forall a, b | 0 <= a < b < |t|
      ensures t[a].key != t[b].key
    {
      LexLessIrreflexive(combos[a]);
      if t[a].key == t[b].key {
        LabelInjective(combos[a], combos[b]);
      }
    }
    forall a | 0 <= a < |t|
      ensures ParseLabel(t[a].key) == Some(combos[a])
    {
      LabelRoundTrip(combos[a]);
    }
  }

  /**
   * With exactly one sub-shell not full, holding k >= 0 electrons, the
   * result is the table of SelectionTable, and every entry holds one
   * directive per electron of the configuration's sub-shells.
   */
  lemma OneUnfilled(conf: seq<string>, shells: seq<Shell>, i: nat)
    requires ParseConf(conf) == Success(shells)
    requires OnlyUnfilled(SpinSplit(shells), i) && SpinSplit(shells)[i].occ >= 0
    ensures ForceOccs(conf).Success?
    ensures
      var spins := SpinSplit(shells);
      var u := spins[i];
      var combos := Combinations(MRange(u.l), u.occ);
      var t := ForceOccs(conf).value;
      && |t| == |combos| == Binomial(Degeneracy(u.l), u.occ) >= 1
      && (forall a, b :: 0 <= a < b < |t| ==> t[a].key != t[b].key && LexLess(combos[a], combos[b]))
      && (forall a :: 0 <= a < |t| ==>
        && ParseLabel(t[a].key) == Some(combos[a])
        && |combos[a]| == u.occ && Increasing(combos[a])
        && (forall j :: 0 <= j < |combos[a]| ==> -(u.l as int) <= combos[a][j] <= u.l)
        && t[a].directives == FilledDirectives(spins, NMaxOcc(shells)) + Directives(u, combos[a], NMaxOcc(shells))
        && |t[a].directives| == Occupancy(spins))
  {
    var spins := SpinSplit(shells);
    var u := spins[i];
    var filled := FilledDirectives(spins, NMaxOcc(shells));
    OneUnfilledTable(conf, shells, i);
    SelectionTable(u, filled, NMaxOcc(shells));
    OccupancySplit(spins);
    UnfilledOccupancyOne(spins, i);
  }

  lemma {:induction false} BinomialPositive(n: nat, k: nat)
    requires k <= n
    ensures Binomial(n, k) >= 1
  {
    if k > 0 {
      BinomialPositive(n - 1, k - 1);
    }
  }

  /** Every way to place k electrons on distinct `m` in `[-l, l]` has its entry. */
  lemma OneUnfilledComplete(conf: seq<string>, shells: seq<Shell>, i: nat, c: seq<int>)
    requires ParseConf(conf) == Success(shells)
    requires OnlyUnfilled(SpinSplit(shells), i) && SpinSplit(shells)[i].occ >= 0
    requires Increasing(c) && |c| == SpinSplit(shells)[i].occ
    requires forall j :: 0 <= j < |c| ==> -(SpinSplit(shells)[i].l as int) <= c[j] <= SpinSplit(shells)[i].l
    ensures ForceOccs(conf).Success?
    ensures exists a :: 0 <= a < |ForceOccs(conf).value| && ForceOccs(conf).value[a].key == Label(c)
  {
    var spins := SpinSplit(shells);
    var u := spins[i];
    OnlyUnfilledIndices(spins, i);
    var m := MRange(u.l);
    forall j | 0 <= j < |c|
      ensures c[j] in m
    {
      assert m[c[j] + u.l] == c[j];
    }
    CombinationsComplete(m, u.occ, c);
    var combos := Combinations(m, u.occ);
    var a :| 0 <= a < |combos| && combos[a] == c;
    var t := ForceOccs(conf).value;
    assert t == Table(combos, FilledDirectives(spins, NMaxOcc(shells)), u, NMaxOcc(shells));
    assert t[a].key == Label(c);
  }

  /** Every directive of every entry is well formed and carries the normaliser `nmaxocc`. */
  lemma DirectivesWellFormed(conf: seq<string>)
    requires ForceOccs(conf).Success?
    ensures forall a, d :: 0 <= a < |ForceOccs(conf).value| && d in ForceOccs(conf).value[a].directives ==>
      WellFormed(d, NMaxOcc(ParseConf(conf).value))
  {
    var shells := ParseConf(conf).value;
    var norm := NMaxOcc(shells);
    var spins := SpinSplit(shells);
    var r := UnfilledIndices(spins);
    var filled := FilledDirectives(spins, norm);
    var t := ForceOccs(conf).value;
    if |r| == 1 {
      var u := spins[r[0]];
      var combos := Combinations(MRange(u.l), u.occ);
      assert t == Table(combos, filled, u, norm);
      CombinationsElements(MRange(u.l), u.occ);
      forall a, d | 0 <= a < |t| && d in t[a].directives
        ensures WellFormed(d, norm)
      {
        var ds := Directives(u, combos[a], norm);
        if d !in filled {
          assert d in ds;
          var j :| 0 <= j < |ds| && ds[j] == d;
          assert combos[a][j] in MRange(u.l);
        }
      }
    }
  }

}
