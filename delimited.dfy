/**
 * Python's `sep.join(parts)` and `s.split(sep)` for a one-character
 * separator, and the round trip between them.
 */
module Delimited {

  /** `sep.join(parts)`. */
  function Join(parts: seq<string>, sep: char): string
  {
    if |parts| == 0 then ""
    else if |parts| == 1 then parts[0]
    else parts[0] + [sep] + Join(parts[1..], sep)
  }

  /** `s.split(sep)`: the pieces between separators, always at least one. */
  function Split(s: string, sep: char): (r: seq<string>)
    ensures |r| >= 1
  {
    if s == [] then [""]
    else
      var rest := Split(s[1..], sep);
      if s[0] == sep then [""] + rest else [[s[0]] + rest[0]] + rest[1..]
  }

  /** Splitting after a piece that holds no separator keeps that piece whole. */
  lemma {:induction false} SplitAfterPiece(u: string, rest: string, sep: char)
    requires sep !in u
    ensures Split(u + rest, sep) == [u + Split(rest, sep)[0]] + Split(rest, sep)[1..]
  {
    if u != [] {
      assert (u + rest)[1..] == u[1..] + rest;
      SplitAfterPiece(u[1..], rest, sep);
      assert [u[0]] + (u[1..] + Split(rest, sep)[0]) == u + Split(rest, sep)[0];
    } else {
      var r := Split(rest, sep);
      assert u + rest == rest && u + r[0] == r[0];
      assert r == [r[0]] + r[1..];
    }
  }

  /** `split` undoes `join` when no piece holds the separator. */
  lemma {:induction false} SplitJoin(parts: seq<string>, sep: char)
    requires |parts| >= 1
    requires forall i :: 0 <= i < |parts| ==> sep !in parts[i]
    ensures Split(Join(parts, sep), sep) == parts
  {
    if |parts| == 1 {
      SplitAfterPiece(parts[0], "", sep);
      assert parts[0] + "" == parts[0];
    } else {
      var tail := Join(parts[1..], sep);
      assert Join(parts, sep) == parts[0] + ([sep] + tail);
      SplitAfterPiece(parts[0], [sep] + tail, sep);
      assert ([sep] + tail)[1..] == tail;
      SplitJoin(parts[1..], sep);
      assert parts[0] + "" == parts[0];
      assert parts == [parts[0]] + parts[1..];
    }
  }
}
