/**
 * The crystal builder of calc.py (`get_crystal`): from a Strukturbericht
 * code, a cubic lattice constant `a` and the species, the primitive
 * lattice vectors and the atoms of the basis.
 */
module Crystals {
  import opened Wrappers

  datatype Vec3 = Vec3(x: real, y: real, z: real)

  datatype Atom = Atom(species: string, pos: Vec3)

  /** An ordered basis of atoms and three lattice vectors. */
  datatype Crystal = Crystal(atoms: seq<Atom>, lattice: seq<Vec3>)

  datatype CrystalError =
    | MissingSpecies    // `species[0]` or `species[1]` past the end: IndexError
    | UnsupportedGroup  // no branch binds `atoms`: UnboundLocalError

  const Origin := Vec3(0.0, 0.0, 0.0)

  /** The codes that have a branch. */
  predicate Supported(group: string) {
    group == "A1" || group == "A2" || group == "A4" || group == "B1" || group == "B3"
  }

  /** How many entries of `species` a supported code reads. */
  function SpeciesRead(group: string): nat {
    if group == "B1" || group == "B3" then 2 else 1
  }

  function Plus(u: Vec3, v: Vec3): Vec3 {
    Vec3(u.x + v.x, u.y + v.y, u.z + v.z)
  }

  function Scale(k: real, v: Vec3): Vec3 {
    Vec3(k * v.x, k * v.y, k * v.z)
  }

  function Dot(u: Vec3, v: Vec3): real {
    u.x * v.x + u.y * v.y + u.z * v.z
  }

  /** The signed volume spanned by three vectors. */
  function Det(u: Vec3, v: Vec3, w: Vec3): real {
    u.x * (v.y * w.z - v.z * w.y) - u.y * (v.x * w.z - v.z * w.x) + u.z * (v.x * w.y - v.y * w.x)
  }

  /** `latt_vecs`: body-centred for A2, face-centred for every other code. */
  function LatticeVectors(group: string, a: real): (r: seq<Vec3>)
    ensures |r| == 3
  {
    var h := a / 2.0;
    if group == "A2" then [Vec3(-h, h, h), Vec3(h, -h, h), Vec3(h, h, -h)]
    else [Vec3(0.0, h, h), Vec3(h, 0.0, h), Vec3(h, h, 0.0)]
  }

  /** `get_crystal(group, a, species)`. */
  function GetCrystal(group: string, a: real, species: seq<string>): (r: Result<Crystal, CrystalError>)
    ensures r.Success? <==> Supported(group) && SpeciesRead(group) <= |species|
    ensures r == Failure(UnsupportedGroup) <==> !Supported(group)
    ensures r.Success? ==>
      && r.value.lattice == LatticeVectors(group, a)
      && |r.value.atoms| == (if group == "A1" || group == "A2" then 1 else 2)
      && r.value.atoms[0] == Atom(species[0], Origin)
    ensures r.Success? && group == "A4" ==> r.value.atoms[1] == Atom(species[0], Vec3(a / 4.0, a / 4.0, a / 4.0))
    ensures r.Success? && group == "B1" ==> r.value.atoms[1] == Atom(species[1], Vec3(a / 2.0, a / 2.0, a / 2.0))
    ensures r.Success? && group == "B3" ==> r.value.atoms[1] == Atom(species[1], Vec3(a / 4.0, a / 4.0, a / 4.0))
  {
    var latt := LatticeVectors(group, a);
    var h, q := a / 2.0, a / 4.0;
    if group == "A1" || group == "A2" then
      if |species| < 1 then Failure(MissingSpecies)
      else Success(Crystal([Atom(species[0], Origin)], latt))
    else if group == "A4" then
      if |species| < 1 then Failure(MissingSpecies)
      else Success(Crystal([Atom(species[0], Origin), Atom(species[0], Vec3(q, q, q))], latt))
    else if group == "B1" then
      if |species| < 2 then Failure(MissingSpecies)
      else Success(Crystal([Atom(species[0], Origin), Atom(species[1], Vec3(h, h, h))], latt))
    else if group == "B3" then
      if |species| < 2 then Failure(MissingSpecies)
      else Success(Crystal([Atom(species[0], Origin), Atom(species[1], Vec3(q, q, q))], latt))
    else
      Failure(UnsupportedGroup)
  }

  /**
   * The primitive cell holds the volume of one lattice point: a^3/2 for the
   * body-centred cell (two points per cube), a^3/4 for the face-centred one
   * (four points per cube).
   */
  lemma CellVolume(group: string, a: real)
    ensures var v := LatticeVectors(group, a);
      Det(v[0], v[1], v[2]) == if group == "A2" then a * a * a / 2.0 else a * a * a / 4.0
  {
    var h := a / 2.0;
    assert a * a * a == 8.0 * (h * h * h);
  }

  /**
   * Each lattice vector joins a lattice point to a nearest neighbour: the
   * squared length is 3a^2/4 along the body diagonal, a^2/2 along a face diagonal.
   */
  lemma LatticeVectorLengths(group: string, a: real)
    ensures var v := LatticeVectors(group, a);
      forall i :: 0 <= i < 3 ==> Dot(v[i], v[i]) == if group == "A2" then 3.0 * a * a / 4.0 else a * a / 2.0
  {
    var h := a / 2.0;
    assert a * a == 4.0 * (h * h);
  }

  /**
   * The second atom sits at a fixed fraction of the sum of the three
   * lattice vectors: one half for rock salt (the cube centre), one quarter
   * for diamond and zinc blende (a quarter of the body diagonal).
   */
  lemma SecondAtomPosition(group: string, a: real, species: seq<string>)
    requires GetCrystal(group, a, species).Success? && group != "A1" && group != "A2"
    ensures var c := GetCrystal(group, a, species).value;
      var diagonal := Plus(Plus(c.lattice[0], c.lattice[1]), c.lattice[2]);
      c.atoms[1].pos == Scale(if group == "B1" then 0.5 else 0.25, diagonal)
  {
  }

  /** The atoms of diamond and zinc blende are a quarter body diagonal apart: a bond of length sqrt(3) a / 4. */
  lemma BondLength(group: string, a: real, species: seq<string>)
    requires GetCrystal(group, a, species).Success? && (group == "A4" || group == "B3")
    ensures var p := GetCrystal(group, a, species).value.atoms[1].pos;
      Dot(p, p) == 3.0 * a * a / 16.0
  {
    var q := a / 4.0;
    assert a * a == 16.0 * (q * q);
  }
}
