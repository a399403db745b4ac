/**
 * The split of a solid's label into element symbols in calc.py:
 * `re.split(r'([A-Z])', label)` cuts before every capital and keeps the
 * capitals, the part before the first capital is dropped, and the rest is
 * joined in pairs (a capital and the lower-case run after it).
 */
module ElementLabels {
  import opened Chunks

  predicate IsCapital(c: char) {
    'A' <= c <= 'Z'
  }

  predicate NoCapitals(s: string) {
    forall i :: 0 <= i < |s| ==> !IsCapital(s[i])
  }

  function CountCapitals(s: string): nat {
    if s == [] then 0 else (if IsCapital(s[0]) then 1 else 0) + CountCapitals(s[1..])
  }

  /**
   * `re.split(r'([A-Z])', s)`: capital-free runs at the even places, each
   * capital on its own at the odd places, and nothing lost.
   */
  function SplitAtCapitals(s: string): (r: seq<string>)
    ensures |r| == 2 * CountCapitals(s) + 1
    ensures Flatten(r) == s
  {
    if s == [] then [""]
    else
      var rest := SplitAtCapitals(s[1..]);
      if IsCapital(s[0]) then
        assert Flatten(["", [s[0]]] + rest) == s by {
          FlattenAppend(["", [s[0]]], rest);
          assert Flatten(["", [s[0]]]) == [s[0]];
        }
        ["", [s[0]]] + rest
      else
        assert Flatten([[s[0]] + rest[0]] + rest[1..]) == s by {
          FlattenAppend([[s[0]] + rest[0]], rest[1..]);
          assert Flatten([[s[0]] + rest[0]]) == [s[0]] + rest[0];
        }
        [[s[0]] + rest[0]] + rest[1..]
  }

  /** Piece `2j` of a split is a capital-free run. */
  predicate RunAt(r: seq<string>, j: nat)
    requires 2 * j < |r|
  {
    NoCapitals(r[2 * j])
  }

  /** Piece `2j + 1` of a split is a single capital. */
  predicate CapitalAt(r: seq<string>, j: nat)
    requires 2 * j + 1 < |r|
  {
    |r[2 * j + 1]| == 1 && IsCapital(r[2 * j + 1][0])
  }

  /** The even pieces of a split are capital-free runs. */
  lemma {:induction false} SplitAtCapitalsRuns(s: string)
    ensures forall j :: 0 <= j <= CountCapitals(s) ==> RunAt(SplitAtCapitals(s), j)
  {
    var r := SplitAtCapitals(s);
    var m := CountCapitals(s);
    if s != [] {
      var rest := SplitAtCapitals(s[1..]);
      SplitAtCapitalsRuns(s[1..]);
      if IsCapital(s[0]) {
        assert r == ["", [s[0]]] + rest;
        assert m == CountCapitals(s[1..]) + 1;
        forall j | 0 <= j <= m
          ensures RunAt(r, j)
        {
          if j > 0 {
            assert RunAt(rest, j - 1);
            assert r[2 * j] == rest[2 * (j - 1)];
          }
        }
      } else {
        assert r == [[s[0]] + rest[0]] + rest[1..];
        assert m == CountCapitals(s[1..]);
        forall j | 0 <= j <= m
          ensures RunAt(r, j)
        {
          assert RunAt(rest, j);
          if j == 0 {
            assert r[0] == [s[0]] + rest[0];
          } else {
            assert r[2 * j] == rest[2 * j];
          }
        }
      }
    }
  }

  /** The odd pieces of a split are single capitals. */
  lemma {:induction false} SplitAtCapitalsCapitals(s: string)
    ensures forall j :: 0 <= j < CountCapitals(s) ==> CapitalAt(SplitAtCapitals(s), j)
  {
    var r := SplitAtCapitals(s);
    var m := CountCapitals(s);
    if s != [] {
      var rest := SplitAtCapitals(s[1..]);
      SplitAtCapitalsCapitals(s[1..]);
      if IsCapital(s[0]) {
        assert r == ["", [s[0]]] + rest;
        assert m == CountCapitals(s[1..]) + 1;
        forall j | 0 <= j < m
          ensures CapitalAt(r, j)
        {
          if j > 0 {
            assert CapitalAt(rest, j - 1);
            assert r[2 * j + 1] == rest[2 * (j - 1) + 1];
          }
        }
      } else {
        assert r == [[s[0]] + rest[0]] + rest[1..];
        assert m == CountCapitals(s[1..]);
        forall j | 0 <= j < m
          ensures CapitalAt(r, j)
        {
          assert CapitalAt(rest, j);
          assert r[2 * j + 1] == rest[2 * j + 1];
        }
      }
    }
  }

  /** `''.join(c)` for every chunk `c`. */
  function JoinEach(cs: seq<seq<string>>): (r: seq<string>)
    ensures |r| == |cs|
    ensures forall i :: 0 <= i < |cs| ==> r[i] == Flatten(cs[i])
  {
    if cs == [] then [] else [Flatten(cs[0])] + JoinEach(cs[1..])
  }

  /** The element symbols of a solid's label, as calc.py computes them. */
  function ElementSymbols(name: string): seq<string> {
    JoinEach(ChunksOf(SplitAtCapitals(name)[1..], 2))
  }

  lemma {:induction false} FlattenJoinEach(cs: seq<seq<string>>)
    ensures Flatten(JoinEach(cs)) == Flatten(Flatten(cs))
  {
    if cs != [] {
      FlattenJoinEach(cs[1..]);
      FlattenAppend(cs[0], Flatten(cs[1..]));
    }
  }

  /** Joining an even-length sequence in pairs: pair `i` is items `2i` and `2i + 1`. */
  lemma JoinPairs(tail: seq<string>, m: nat)
    requires |tail| == 2 * m
    ensures |JoinEach(ChunksOf(tail, 2))| == m
    ensures forall i :: 0 <= i < m ==> JoinEach(ChunksOf(tail, 2))[i] == tail[2 * i] + tail[2 * i + 1]
  {
    var cs := ChunksOf(tail, 2);
    ChunkCount(tail, 2);
    forall i | 0 <= i < m
      ensures JoinEach(cs)[i] == tail[2 * i] + tail[2 * i + 1]
    {
      ChunkAt(tail, 2, i);
      var a, b := tail[2 * i], tail[2 * i + 1];
      assert cs[i] == [a, b];
      assert [a, b][1..] == [b] && [b][1..] == [];
      assert Flatten([b]) == b + [];
      assert b + [] == b;
      assert Flatten(cs[i]) == tail[2 * i] + tail[2 * i + 1];
    }
  }

  /** A capital piece followed by a run piece joins into one well-formed symbol. */
  lemma SymbolOfPieces(pieces: seq<string>, i: nat, symbol: string)
    requires 2 * i + 2 < |pieces| && CapitalAt(pieces, i) && RunAt(pieces, i + 1)
    requires symbol == pieces[2 * i + 1] + pieces[2 * i + 2]
    ensures |symbol| >= 1 && IsCapital(symbol[0]) && NoCapitals(symbol[1..])
  {
    assert pieces[2 * (i + 1)] == pieces[2 * i + 2];
    assert symbol[1..] == pieces[2 * i + 2];
  }

  /** One symbol per capital, each a capital followed by non-capitals (in practice lower-case letters). */
  lemma ElementSymbolsShape(name: string)
    ensures |ElementSymbols(name)| == CountCapitals(name)
    ensures forall i :: 0 <= i < |ElementSymbols(name)| ==>
      |ElementSymbols(name)[i]| >= 1 && IsCapital(ElementSymbols(name)[i][0]) && NoCapitals(ElementSymbols(name)[i][1..])
  {
    var pieces := SplitAtCapitals(name);
    var r := ElementSymbols(name);
    JoinPairs(pieces[1..], CountCapitals(name));
    SplitAtCapitalsRuns(name);
    SplitAtCapitalsCapitals(name);
    forall i | 0 <= i < |r|
      ensures |r[i]| >= 1 && IsCapital(r[i][0]) && NoCapitals(r[i][1..])
    {
      assert pieces[1..][2 * i] == pieces[2 * i + 1] && pieces[1..][2 * i + 1] == pieces[2 * i + 2];
      SymbolOfPieces(pieces, i, r[i]);
    }
  }

  /** The text before the first capital, then the symbols, spell the label: nothing else is dropped. */
  lemma ElementSymbolsSpell(name: string)
    ensures SplitAtCapitals(name)[0] + Flatten(ElementSymbols(name)) == name
  {
    var pieces := SplitAtCapitals(name);
    var tail := pieces[1..];
    FlattenJoinEach(ChunksOf(tail, 2));
    FlattenChunks(tail, 2);
    assert pieces == [pieces[0]] + tail;
  }

  /** Splitting one more character onto the front of `s`. */
  lemma SplitCons(c: char, s: string)
    ensures SplitAtCapitals([c] + s) ==
      if IsCapital(c) then ["", [c]] + SplitAtCapitals(s)
      else [[c] + SplitAtCapitals(s)[0]] + SplitAtCapitals(s)[1..]
  {
    assert ([c] + s)[0] == c && ([c] + s)[1..] == s;
  }

  /** `re.split(r'([A-Z])', "NaCl")` is `['', 'N', 'a', 'C', 'l']`. */
  lemma RockSaltSplit(name: string)
    requires name == "NaCl"
    ensures SplitAtCapitals(name) == ["", "N", "a", "C", "l"]
  {
    SplitCons('l', "");
    assert ['l'] + "" == "l";
    SplitCons('C', "l");
    assert ['C'] + "l" == "Cl";
    SplitCons('a', "Cl");
    assert ['a'] + "Cl" == "aCl";
    SplitCons('N', "aCl");
    assert ['N'] + "aCl" == name;
  }

  /** Rock salt: the label "NaCl" gives the symbols "Na" and "Cl". */
  lemma RockSaltSymbols(name: string)
    requires name == "NaCl"
    ensures ElementSymbols(name) == ["Na", "Cl"]
  {
    RockSaltSplit(name);
    var tail := ["N", "a", "C", "l"];
    assert SplitAtCapitals(name)[1..] == tail;
    assert ChunksOf(tail, 2) == [["N", "a"], ["C", "l"]] by {
      assert tail[..2] == ["N", "a"] && tail[2..] == ["C", "l"];
      assert ChunksOf(["C", "l"], 2) == [["C", "l"]] by {
        assert ["C", "l"][..2] == ["C", "l"] && ["C", "l"][2..] == [];
      }
    }
    assert Flatten(["N", "a"]) == "Na" by {
      assert ["N", "a"][1..] == ["a"] && ["a"][1..] == [];
    }
    assert Flatten(["C", "l"]) == "Cl" by {
      assert ["C", "l"][1..] == ["l"] && ["l"][1..] == [];
    }
  }
}
