/**
 * Worked configurations for the force-occupation enumerator, among them
 * the edge cases that follow from the early `break` in the spin loop.
 */
module ForceOccupationCases {
  import opened Wrappers
  import opened Numerals
  import opened Combinatorics
  import opened Shells
  import opened ForceOccupations

  lemma ParseOne(token: string, sh: Shell)
    requires ParseShell(token) == Success(sh)
    ensures ParseConf([token]) == Success([sh])
  {
    ParseConfTokens([token]);
    assert ParseConf([token]).value[0] == sh;
    assert ParseConf([token]).value == [sh];
  }

  lemma PrependEmpty(x: int)
    ensures Prepend(x, [[]]) == [[x]]
  {
    assert [x] + [] == [x];
  }

  /** A configuration of one token: its shell, that shell's sub-shells, and its orbitals. */
  lemma OneToken(token: string, sh: Shell, ss: seq<SpinShell>)
    requires ParseShell(token) == Success(sh) && SplitShell(sh) == ss
    ensures ParseConf([token]) == Success([sh])
    ensures SpinSplit([sh]) == ss
    ensures NMaxOcc([sh]) == Degeneracy(sh.l)
  {
    ParseOne(token, sh);
    SplitOne(sh, ss);
    assert [sh][..0] == [];
  }

  /** A parsed configuration whose only sub-shell is not full gives the table over that sub-shell. */
  lemma OneOpenCase(conf: seq<string>, shells: seq<Shell>, u: SpinShell, norm: int)
    requires ParseConf(conf) == Success(shells)
    requires SpinSplit(shells) == [u] && NMaxOcc(shells) == norm
    requires IsUnfilled(u) && u.occ >= 0 && (u.spin == 1 || u.spin == 2)
    requires FilledDirectives([u], norm) == []
    ensures ForceOccs(conf) == Success(Table(Combinations(MRange(u.l), u.occ), [], u, norm))
  {
    assert OnlyUnfilled([u], 0);
    OneUnfilledTable(conf, shells, 0);
  }

  /** A parsed configuration whose sub-shells are all full gives the single key "-". */
  lemma AllFullCase(conf: seq<string>, shells: seq<Shell>, spins: seq<SpinShell>, norm: int)
    requires ParseConf(conf) == Success(shells)
    requires SpinSplit(shells) == spins && NMaxOcc(shells) == norm
    requires forall j :: 0 <= j < |spins| ==> !IsUnfilled(spins[j])
    ensures ForceOccs(conf) == Success([Entry("-", FilledDirectives(spins, norm))])
  {
    AllFilled(conf, shells);
  }

  /** The tokens of the worked configurations. */
  lemma ParseToken(token: string, sh: Shell)
    requires (token, sh) in {("2p1", Shell(2, 1, 1)), ("3d0", Shell(3, 2, 0)), ("1s2", Shell(1, 0, 2)), ("2p3", Shell(2, 1, 3))}
    ensures ParseShell(token) == Success(sh)
  {
    assert ParseInt("0") == Some(0) && ParseInt("1") == Some(1);
    assert ParseInt("2") == Some(2) && ParseInt("3") == Some(3);
  }

  /** The spin split of the shells of the worked configurations. */
  lemma SplitToken(sh: Shell, ss: seq<SpinShell>)
    requires (sh, ss) in {
      (Shell(2, 1, 1), [SpinShell(2, 1, 1, 1)]), (Shell(3, 2, 0), [SpinShell(3, 2, 1, 0)]),
      (Shell(1, 0, 2), [SpinShell(1, 0, 1, 1), SpinShell(1, 0, 2, 1)]), (Shell(2, 1, 3), [SpinShell(2, 1, 1, 3)])}
    ensures SplitShell(sh) == ss
  {
  }

  /** A sub-shell that is not full contributes no directive. */
  lemma NoneFilled(u: SpinShell, norm: int)
    requires IsUnfilled(u) && (u.spin == 1 || u.spin == 2)
    ensures FilledDirectives([u], norm) == []
  {
    assert [u][..0] == [];
  }

  /** "2p1" parses to one shell whose single electron stays in spin 1: one sub-shell, not full. */
  lemma SingleElectronTable(conf: seq<string>, shells: seq<Shell>, u: SpinShell)
    requires conf == ["2p1"] && shells == [Shell(2, 1, 1)] && u == SpinShell(2, 1, 1, 1)
    ensures ForceOccs(conf) == Success(Table(Combinations(MRange(1), 1), [], u, 3))
  {
    ParseToken("2p1", Shell(2, 1, 1));
    SplitToken(Shell(2, 1, 1), [u]);
    OneToken("2p1", Shell(2, 1, 1), [u]);
    NoneFilled(u, 3);
    OneOpenCase(conf, shells, u, 3);
  }

  /** The selections of one `m` out of `[-1, 1]`, in order. */
  lemma SingleSelections(m: seq<int>)
    requires m == MRange(1)
    ensures Combinations(m, 1) == [[-1], [0], [1]]
  {
    assert m == [-1, 0, 1];
    var m1, m2, m3 := m[1..], m[2..], m[3..];
    assert m1 == [0, 1] && m2 == [1] && m3 == [] && m1[1..] == m2 && m2[1..] == m3;
    assert Combinations(m3, 1) == [];
    PrependEmpty(-1);
    PrependEmpty(0);
    PrependEmpty(1);
    assert Combinations(m2, 1) == Prepend(1, [[]]) + [] == [[1]];
    assert Combinations(m1, 1) == Prepend(0, [[]]) + [[1]] == [[0], [1]];
    assert Combinations(m, 1) == Prepend(-1, [[]]) + [[0], [1]];
  }

  /** The keys of the three single selections. */
  lemma SingleLabels()
    ensures Label([-1]) == "-1" && Label([0]) == "0" && Label([1]) == "1"
  {
    assert IntToString(-1) == "-1" by {
      assert NatToString(1) == "1";
    }
    assert IntStrings([-1]) == ["-1"] && IntStrings([0]) == ["0"] && IntStrings([1]) == ["1"];
  }

  /** The three selections of one `m` out of `[-1, 1]`, with their keys. */
  lemma SingleElectronEntries(u: SpinShell, m: seq<int>)
    requires u == SpinShell(2, 1, 1, 1) && m == MRange(1)
    ensures Table(Combinations(m, 1), [], u, 3) == [
      Entry("-1", [Directive(1, 1, "atomic", 2, 1, -1, 1, 3)]),
      Entry("0", [Directive(1, 1, "atomic", 2, 1, 0, 1, 3)]),
      Entry("1", [Directive(1, 1, "atomic", 2, 1, 1, 1, 3)])]
  {
    SingleSelections(m);
    SingleLabels();
    var combos := [[-1], [0], [1]];
    var t := Table(combos, [], u, 3);
    forall x | x in [-1, 0, 1]
      ensures [] + Directives(u, [x], 3) == [MakeDirective(u, x, 3)]
    {
    }
    assert t[0] == Entry("-1", [MakeDirective(u, -1, 3)]);
    assert t[1] == Entry("0", [MakeDirective(u, 0, 3)]);
    assert t[2] == Entry("1", [MakeDirective(u, 1, 3)]);
  }

  /** "2p1" gives the three keys "-1", "0" and "1", one directive each. */
  lemma SingleElectronInP()
    ensures ForceOccs(["2p1"]) == Success([
      Entry("-1", [Directive(1, 1, "atomic", 2, 1, -1, 1, 3)]),
      Entry("0", [Directive(1, 1, "atomic", 2, 1, 0, 1, 3)]),
      Entry("1", [Directive(1, 1, "atomic", 2, 1, 1, 1, 3)])])
  {
    SingleElectronTable(["2p1"], [Shell(2, 1, 1)], SpinShell(2, 1, 1, 1));
    SingleElectronEntries(SpinShell(2, 1, 1, 1), MRange(1));
  }

  /** "3d0": one empty sub-shell, not full, and nothing else. */
  lemma EmptyShellTable(conf: seq<string>, shells: seq<Shell>, u: SpinShell)
    requires conf == ["3d0"] && shells == [Shell(3, 2, 0)] && u == SpinShell(3, 2, 1, 0)
    ensures ForceOccs(conf) == Success(Table(Combinations(MRange(2), 0), [], u, 5))
  {
    ParseToken("3d0", Shell(3, 2, 0));
    SplitToken(Shell(3, 2, 0), [u]);
    OneToken("3d0", Shell(3, 2, 0), [u]);
    NoneFilled(u, 5);
    OneOpenCase(conf, shells, u, 5);
  }

  /** `combinations(..., 0)` gives one empty selection, whose key is "". */
  lemma EmptySelection(u: SpinShell, m: seq<int>)
    requires m == MRange(2)
    ensures Table(Combinations(m, 0), [], u, 5) == [Entry("", [])]
  {
    assert Label([]) == "";
    assert Table([[]], [], u, 5)[0] == Entry("", []);
  }

  lemma EmptyShell()
    ensures ForceOccs(["3d0"]) == Success([Entry("", [])])
  {
    EmptyShellTable(["3d0"], [Shell(3, 2, 0)], SpinShell(3, 2, 1, 0));
    EmptySelection(SpinShell(3, 2, 1, 0), MRange(2));
  }

  /** "1s2": both spins of the s shell are full. */
  lemma ClosedShellTable(conf: seq<string>, shells: seq<Shell>, spins: seq<SpinShell>)
    requires conf == ["1s2"] && shells == [Shell(1, 0, 2)]
    requires spins == [SpinShell(1, 0, 1, 1), SpinShell(1, 0, 2, 1)]
    ensures ForceOccs(conf) == Success([Entry("-", FilledDirectives(spins, 1))])
  {
    ParseToken("1s2", Shell(1, 0, 2));
    SplitToken(Shell(1, 0, 2), spins);
    OneToken("1s2", Shell(1, 0, 2), spins);
    AllFullCase(conf, shells, spins, 1);
  }


  /** One directive with `m = 0` per full spin of an s shell. */
  lemma ClosedShellDirectives(spins: seq<SpinShell>)
    requires spins == [SpinShell(1, 0, 1, 1), SpinShell(1, 0, 2, 1)]
    ensures FilledDirectives(spins, 1) == [
      Directive(1, 1, "atomic", 1, 0, 0, 1, 1),
      Directive(1, 2, "atomic", 1, 0, 0, 1, 1)]
  {
    assert MRange(0) == [0];
    assert spins[..1] == [spins[0]] && spins[..1][..0] == [];
    assert FilledDirectives(spins[..1][..0], 1) == [];
    assert FilledDirectives(spins[..1], 1) == [MakeDirective(spins[0], 0, 1)];
  }

  /** "1s2" gives the single key "-", with one directive per spin. */
  lemma ClosedShell()
    ensures ForceOccs(["1s2"]) == Success([Entry("-", [
      Directive(1, 1, "atomic", 1, 0, 0, 1, 1),
      Directive(1, 2, "atomic", 1, 0, 0, 1, 1)])])
  {
    ClosedShellTable(["1s2"], [Shell(1, 0, 2)], [SpinShell(1, 0, 1, 1), SpinShell(1, 0, 2, 1)]);
    ClosedShellDirectives([SpinShell(1, 0, 1, 1), SpinShell(1, 0, 2, 1)]);
  }

  /**
   * "2p3": spin 1 takes all three electrons and the loop stops, so no
   * empty spin-2 sub-shell is made and every sub-shell is full.
   */
  lemma HalfFilledTable(conf: seq<string>, shells: seq<Shell>, spins: seq<SpinShell>)
    requires conf == ["2p3"] && shells == [Shell(2, 1, 3)] && spins == [SpinShell(2, 1, 1, 3)]
    ensures ForceOccs(conf) == Success([Entry("-", FilledDirectives(spins, 3))])
  {
    ParseToken("2p3", Shell(2, 1, 3));
    SplitToken(Shell(2, 1, 3), spins);
    OneToken("2p3", Shell(2, 1, 3), spins);
    AllFullCase(conf, shells, spins, 3);
  }

  /** One directive per `m` of the full spin-1 p sub-shell. */
  lemma HalfFilledDirectives(spins: seq<SpinShell>)
    requires spins == [SpinShell(2, 1, 1, 3)]
    ensures FilledDirectives(spins, 3) == [
      Directive(1, 1, "atomic", 2, 1, -1, 1, 3),
      Directive(1, 1, "atomic", 2, 1, 0, 1, 3),
      Directive(1, 1, "atomic", 2, 1, 1, 1, 3)]
  {
    assert MRange(1) == [-1, 0, 1];
    assert spins[..0] == [];
    assert FilledDirectives(spins, 3) == Directives(spins[0], [-1, 0, 1], 3);
  }

  /** "2p3" gives the single key "-" with three directives. */
  lemma HalfFilledP()
    ensures ForceOccs(["2p3"]) == Success([Entry("-", [
      Directive(1, 1, "atomic", 2, 1, -1, 1, 3),
      Directive(1, 1, "atomic", 2, 1, 0, 1, 3),
      Directive(1, 1, "atomic", 2, 1, 1, 1, 3)])])
  {
    HalfFilledTable(["2p3"], [Shell(2, 1, 3)], [SpinShell(2, 1, 1, 3)]);
    HalfFilledDirectives([SpinShell(2, 1, 1, 3)]);
  }

  lemma ParseTwo(conf: seq<string>, shells: seq<Shell>)
    requires conf == ["2p1", "3d1"] && shells == [Shell(2, 1, 1), Shell(3, 2, 1)]
    ensures ParseConf(conf) == Success(shells)
  {
    assert ParseInt("1") == Some(1);
    assert ParseShell("2p1") == Success(Shell(2, 1, 1));
    assert ParseShell("3d1") == Success(Shell(3, 2, 1));
    ParseConfTokens(conf);
    assert ParseConf(conf).value[0] == shells[0] && ParseConf(conf).value[1] == shells[1];
    assert ParseConf(conf).value == shells;
  }

  lemma SplitTwo(shells: seq<Shell>, u: SpinShell, v: SpinShell)
    requires shells == [Shell(2, 1, 1), Shell(3, 2, 1)]
    requires u == SpinShell(2, 1, 1, 1) && v == SpinShell(3, 2, 1, 1)
    ensures TwoUnfilled(SpinSplit(shells))
  {
    assert shells[..1] == [shells[0]];
    SplitOne(shells[0], [u]);
    assert SplitShell(shells[1]) == [v];
    assert SpinSplit(shells) == SpinSplit(shells[..1]) + SplitShell(shells[1]);
    assert IsUnfilled(SpinSplit(shells)[0]) && IsUnfilled(SpinSplit(shells)[1]);
  }

  /** "2p1" together with "3d1": two sub-shells are not full and the assertion fails. */
  lemma TwoOpenShells()
    ensures ForceOccs(["2p1", "3d1"]) == Failure(AmbiguousConfiguration)
  {
    ParseTwo(["2p1", "3d1"], [Shell(2, 1, 1), Shell(3, 2, 1)]);
    SplitTwo([Shell(2, 1, 1), Shell(3, 2, 1)], SpinShell(2, 1, 1, 1), SpinShell(3, 2, 1, 1));
    AmbiguousIff(["2p1", "3d1"], [Shell(2, 1, 1), Shell(3, 2, 1)]);
  }

  /** "2p-1": `int` accepts the sign, the negative count stays in spin 1, and `combinations` fails. */
  lemma NegativeOccupancy()
    ensures ForceOccs(["2p-1"]) == Failure(NegativeSelection)
  {
    var sh := Shell(2, 1, -1);
    var u := SpinShell(2, 1, 1, -1);
    assert "2p-1"[2..] == "-1" && "-1"[1..] == "1";
    assert ParseInt("-1") == Some(-1);
    ParseOne("2p-1", sh);
    SplitOne(sh, [u]);
    assert OnlyUnfilled([u], 0);
    NegativeUnfilled(["2p-1"], [sh], 0);
  }

  /** "2x1": 'x' is no orbital letter, so the whole call fails. */
  lemma UnknownLetter()
    ensures ForceOccs(["1s2", "2x1"]) == Failure(ParseFailed(UnknownOrbital))
  {
    var conf := ["1s2", "2x1"];
    assert ParseInt("2") == Some(2);
    assert ParseShell(conf[0]).Success?;
    assert ParseShell(conf[1]) == Failure(UnknownOrbital);
    ParseConfFirstError(conf, 1);
  }
}
