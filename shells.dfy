/**
 * Electron-configuration tokens such as "3d5" or "4s": a one-digit
 * principal quantum number, an orbital letter, and an optional occupancy
 * that defaults to one electron.
 */
module Shells {
  import opened Wrappers
  import opened Numerals

  /** A shell: principal quantum number, azimuthal number, electron count. */
  datatype Shell = Shell(n: nat, l: nat, occ: int)

  /** Why a token could not be read (Python's IndexError and ValueError). */
  datatype ParseError =
    | MissingCharacter  // the token is shorter than two characters
    | NotAnInteger      // the first character or the occupancy is no integer
    | UnknownOrbital    // the second character is not one of "spdf"

  /** Orbital letters in order of their azimuthal quantum number. */
  const Orbitals: string := "spdf"

  /** `"spdf".index(c)`: `None` stands for the ValueError. */
  function OrbitalIndex(c: char): (r: Option<nat>)
    ensures r.Some? ==> r.value < |Orbitals| && Orbitals[r.value] == c
    ensures r.None? <==> c !in Orbitals
  {
    if c == 's' then Some(0)
    else if c == 'p' then Some(1)
    else if c == 'd' then Some(2)
    else if c == 'f' then Some(3)
    else None
  }

  /**
   * `(int(shell[0]), orb.index(shell[1]), int(shell[2:] or 1))`, with the
   * three parts read left to right so that the first failure wins.
   */
  function ParseShell(token: string): (r: Result<Shell, ParseError>)
    ensures r.Success? ==>
      && 2 <= |token| && IsDigit(token[0])
      && r.value.n == DigitValue(token[0])
      && r.value.l < |Orbitals| && Orbitals[r.value.l] == token[1]
    ensures |token| == 2 && IsDigit(token[0]) && token[1] in Orbitals ==>
      r.Success? && r.value.occ == 1
    ensures 2 < |token| && r.Success? ==> ParseInt(token[2..]) == Some(r.value.occ)
    ensures 2 < |token| && IsDigit(token[0]) && token[1] in Orbitals ==>
      (r.Success? <==> ParseInt(token[2..]).Some?)
    ensures r == Failure(NotAnInteger) <==>
      0 < |token| && (!IsDigit(token[0]) || (2 < |token| && token[1] in Orbitals && ParseInt(token[2..]).None?))
    ensures r == Failure(MissingCharacter) <==> |token| == 0 || (|token| == 1 && IsDigit(token[0]))
    ensures r == Failure(UnknownOrbital) <==> 2 <= |token| && IsDigit(token[0]) && token[1] !in Orbitals
  {
    if |token| == 0 then Failure(MissingCharacter)
    else if !IsDigit(token[0]) then Failure(NotAnInteger)
    else if |token| == 1 then Failure(MissingCharacter)
    else
      match OrbitalIndex(token[1])
      case None => Failure(UnknownOrbital)
      case Some(l) =>
        if |token| == 2 then Success(Shell(DigitValue(token[0]), l, 1))
        else
          match ParseInt(token[2..])
          case None => Failure(NotAnInteger)
          case Some(occ) => Success(Shell(DigitValue(token[0]), l, occ))
  }

  /**
   * The list comprehension over the tokens: every token parsed, in order,
   * or the error of the first token that cannot be parsed.
   */
  function ParseConf(conf: seq<string>): (r: Result<seq<Shell>, ParseError>)
    ensures r.Success? ==> |r.value| == |conf|
  {
    if conf == [] then Success([])
    else
      var front :- ParseConf(conf[..|conf| - 1]);
      var last :- ParseShell(conf[|conf| - 1]);
      Success(front + [last])
  }

  /** The token that writes a shell the way configuration tables do. */
  function FormatShell(s: Shell): string
    requires s.n < 10 && s.l < |Orbitals|
  {
    [DigitChar(s.n), Orbitals[s.l]] + IntToString(s.occ)
  }

  /** Parsing a written-out shell gives the shell back. */
  lemma ParseFormatShell(s: Shell)
    requires s.n < 10 && s.l < |Orbitals|
    ensures ParseShell(FormatShell(s)) == Success(s)
  {
    var t := FormatShell(s);
    assert t[2..] == IntToString(s.occ);
    ParseIntOfIntToString(s.occ);
    assert OrbitalIndex(t[1]) == Some(s.l);
  }

  /** ParseConf parses every token on its own and keeps their order. */
  lemma {:induction false} ParseConfTokens(conf: seq<string>)
    ensures ParseConf(conf).Success? <==> forall i :: 0 <= i < |conf| ==> ParseShell(conf[i]).Success?
    ensures ParseConf(conf).Success? ==>
      forall i :: 0 <= i < |conf| ==> ParseConf(conf).value[i] == ParseShell(conf[i]).value
  {
    if conf != [] {
      var front := conf[..|conf| - 1];
      ParseConfTokens(front);
      assert forall i :: 0 <= i < |front| ==> front[i] == conf[i];
    }
  }

  /** A failure reports the error of the first token that cannot be parsed. */
  lemma {:induction false} ParseConfFirstError(conf: seq<string>, k: nat)
    requires k < |conf| && ParseShell(conf[k]).Failure?
    requires forall i :: 0 <= i < k ==> ParseShell(conf[i]).Success?
    ensures ParseConf(conf) == Failure(ParseShell(conf[k]).error)
  {
    var front := conf[..|conf| - 1];
    if k < |conf| - 1 {
      assert forall i :: 0 <= i < k ==> front[i] == conf[i];
      ParseConfFirstError(front, k);
    } else {
      ParseConfTokens(front);
      assert forall i :: 0 <= i < |front| ==> front[i] == conf[i];
    }
  }
}
