/** The Levenshtein distance used to suggest the configuration key that was meant. */
module EditDistance {

  datatype Edit = Insert(at: nat, c: char) | Delete(at: nat) | Substitute(at: nat, c: char)
  {
    predicate Fits(s: string) {
      if Insert? then at <= |s| else at < |s|
    }

    function On(s: string): string
      requires Fits(s)
    {
      match this
      case Insert(at, c) => s[..at] + [c] + s[at..]
      case Delete(at) => s[..at] + s[at + 1..]
      case Substitute(at, c) => s[..at] + [c] + s[at + 1..]
    }
  }

  /** The edits turn a into b, one after the other. */
  predicate Turns(edits: seq<Edit>, a: string, b: string)
    decreases |edits|
  {
    if edits == [] then a == b else edits[0].Fits(a) && Turns(edits[1..], edits[0].On(a), b)
  }

  function Min(a: int, b: int): int { if a < b then a else b }

  /** The textbook recurrence over prefixes: always the cheapest of the three ways. */
  function Dist(a: string, b: string): nat
    decreases |a| + |b|
  {
    if a == "" then |b|
    else if b == "" then |a|
    else
      var a0, b0 := a[..|a| - 1], b[..|b| - 1];
      Min(Min(Dist(a, b0) + 1, Dist(a0, b) + 1), Dist(a0, b0) + if a[|a| - 1] == b[|b| - 1] then 0 else 1)
  }

  // ---- the distance moves by at most one per edit

  lemma {:induction false} Symmetric(a: string, b: string)
    ensures Dist(a, b) == Dist(b, a)
    decreases |a| + |b|
  {
    if a != "" && b != "" {
      Symmetric(a[..|a| - 1], b);
      Symmetric(a, b[..|b| - 1]);
      Symmetric(a[..|a| - 1], b[..|b| - 1]);
    }
  }

  /** One more character at the end of either string costs at most one ... */
  lemma AddLast(a: string, b: string, c: char)
    ensures Dist(a, b + [c]) <= Dist(a, b) + 1
    ensures Dist(a + [c], b) <= Dist(a, b) + 1
  {
    assert (b + [c])[..|b|] == b;
    assert (a + [c])[..|a|] == a;
  }

  /** ... and so does one less ... */
  lemma {:induction false} DropLast(a: string, b: string, c: char)
    ensures Dist(a, b) <= Dist(a, b + [c]) + 1
    decreases |a|
  {
    assert (b + [c])[..|b|] == b;
    if a != "" {
      var a0 := a[..|a| - 1];
      DropLast(a0, b, c);
      assert a == a0 + [a[|a| - 1]];
      AddLast(a0, b, a[|a| - 1]);
    }
  }

  /** ... and a different one. */
  lemma {:induction false} ChangeLast(a: string, b: string, c: char, d: char)
    ensures Dist(a, b + [d]) <= Dist(a, b + [c]) + 1
    decreases |a|
  {
    assert (b + [c])[..|b|] == b && (b + [d])[..|b|] == b;
    if a != "" {
      var a0 := a[..|a| - 1];
      ChangeLast(a0, b, c, d);
      assert a == a0 + [a[|a| - 1]];
      AddLast(a, b, d);
      AddLast(a0, b + [d], a[|a| - 1]);
    }
  }

  /** Taking the diagonal when the last characters agree is never worse than the other two ways. */
  lemma DiagonalIsOptimal(a: string, b: string, c: char)
    ensures Dist(a + [c], b + [c]) == Dist(a, b)
  {
    assert (a + [c])[..|a|] == a && (b + [c])[..|b|] == b;
    DropLast(a, b, c);
    DropLast(b, a, c);
    Symmetric(a, b);
    Symmetric(a + [c], b);
  }

  /** If replacing u by w costs at most one against every string, so it does in front of any ending. */
  lemma {:induction false} BeforeEnding(x: string, u: string, w: string, v: string)
    requires forall y :: Dist(y, w) <= Dist(y, u) + 1
    ensures Dist(x, w + v) <= Dist(x, u + v) + 1
    decreases |v|, |x|
  {
    if v == "" {
      assert u + v == u && w + v == w;
    } else {
      var v0 := v[..|v| - 1];
      assert (w + v)[..|w + v| - 1] == w + v0 && (u + v)[..|u + v| - 1] == u + v0;
      if x == "" {
        assert Dist("", w) <= Dist("", u) + 1;
      } else {
        var x0 := x[..|x| - 1];
        BeforeEnding(x, u, w, v0);
        BeforeEnding(x0, u, w, v0);
        BeforeEnding(x0, u, w, v);
      }
    }
  }

  lemma OneEdit(x: string, s: string, e: Edit)
    requires e.Fits(s)
    ensures Dist(x, e.On(s)) <= Dist(x, s) + 1
  {
    hide Dist;
    var front := s[..e.at];
    match e
    case Insert(at, c) =>
      forall y ensures Dist(y, front + [c]) <= Dist(y, front) + 1 { AddLast(y, front, c); }
      assert s == front + s[at..];
      BeforeEnding(x, front, front + [c], s[at..]);
    case Delete(at) =>
      forall y ensures Dist(y, front) <= Dist(y, front + [s[at]]) + 1 { DropLast(y, front, s[at]); }
      assert s == front + [s[at]] + s[at + 1..];
      BeforeEnding(x, front + [s[at]], front, s[at + 1..]);
    case Substitute(at, c) =>
      forall y ensures Dist(y, front + [c]) <= Dist(y, front + [s[at]]) + 1 { ChangeLast(y, front, s[at], c); }
      assert s == front + [s[at]] + s[at + 1..];
      BeforeEnding(x, front + [s[at]], front + [c], s[at + 1..]);
  }

  // ---- no fewer edits do

  lemma {:induction false} SelfDist(a: string)
    ensures Dist(a, a) == 0
  {
    if a != "" {
      var a0 := a[..|a| - 1];
      SelfDist(a0);
      assert a == a0 + [a[|a| - 1]];
      DiagonalIsOptimal(a0, a0, a[|a| - 1]);
    }
  }

  lemma {:induction false} Walk(x: string, a: string, b: string, edits: seq<Edit>)
    requires Turns(edits, a, b)
    ensures Dist(x, b) <= Dist(x, a) + |edits|
    decreases |edits|
  {
    if edits != [] {
      OneEdit(x, a, edits[0]);
      Walk(x, edits[0].On(a), b, edits[1..]);
    }
  }

  /** However the edits are chosen, they are at least Dist many. */
  lemma NoFewerEdits(a: string, b: string, edits: seq<Edit>)
    requires Turns(edits, a, b)
    ensures Dist(a, b) <= |edits|
  {
    SelfDist(a);
    Walk(a, a, b, edits);
  }

  // ---- that many do

  lemma OnWithEnding(e: Edit, a: string, v: string)
    requires e.Fits(a)
    ensures e.Fits(a + v) && e.On(a + v) == e.On(a) + v
  {
    assert (a + v)[..e.at] == a[..e.at];
    assert (a + v)[e.at..] == a[e.at..] + v;
    if !e.Insert? {
      assert (a + v)[e.at + 1..] == a[e.at + 1..] + v;
    }
  }

  /** Edits of a string can be made with anything behind it. */
  lemma {:induction false} WithEnding(edits: seq<Edit>, a: string, b: string, v: string)
    requires Turns(edits, a, b)
    ensures Turns(edits, a + v, b + v)
    decreases |edits|
  {
    hide Edit.On;
    if edits != [] {
      var e := edits[0];
      OnWithEnding(e, a, v);
      WithEnding(edits[1..], e.On(a), b, v);
    }
  }

  lemma {:induction false} Then(edits: seq<Edit>, a: string, b: string, e: Edit)
    requires Turns(edits, a, b) && e.Fits(b)
    ensures Turns(edits + [e], a, e.On(b))
    decreases |edits|
  {
    if edits == [] {
      assert [e][1..] == [];
      assert edits + [e] == [e];
    } else {
      assert (edits + [e])[1..] == edits[1..] + [e];
      Then(edits[1..], edits[0].On(a), b, e);
    }
  }

  lemma ThenInsert(edits: seq<Edit>, a: string, b0: string, y: char)
    requires Turns(edits, a, b0)
    ensures Turns(edits + [Insert(|b0|, y)], a, b0 + [y])
  {
    Then(edits, a, b0, Insert(|b0|, y));
    assert Insert(|b0|, y).On(b0) == b0 + [y];
  }

  lemma DeleteThen(edits: seq<Edit>, a0: string, x: char, b: string)
    requires Turns(edits, a0, b)
    ensures Turns([Delete(|a0|)] + edits, a0 + [x], b)
  {
    assert ([Delete(|a0|)] + edits)[1..] == edits;
    assert Delete(|a0|).On(a0 + [x]) == a0;
  }

  lemma ThenSubstitute(edits: seq<Edit>, a0: string, x: char, b0: string, y: char)
    requires Turns(edits, a0, b0)
    ensures Turns(edits + [Substitute(|b0|, y)], a0 + [x], b0 + [y])
  {
    WithEnding(edits, a0, b0, [x]);
    Then(edits, a0 + [x], b0 + [x], Substitute(|b0|, y));
    assert Substitute(|b0|, y).On(b0 + [x]) == b0 + [y];
  }

  /** A cheapest list of edits. */
  lemma {:induction false} BestEdits(a: string, b: string) returns (edits: seq<Edit>)
    ensures Turns(edits, a, b) && |edits| == Dist(a, b)
    decreases |a| + |b|
  {
    if a == "" && b == "" {
      return [];
    }
    hide Turns;
    var a0, b0 := if a == "" then "" else a[..|a| - 1], if b == "" then "" else b[..|b| - 1];
    assert a != "" ==> a == a0 + [a[|a| - 1]];
    assert b != "" ==> b == b0 + [b[|b| - 1]];
    if a == "" || (b != "" && Dist(a, b) == Dist(a, b0) + 1) {
      edits := BestEdits(a, b0);
      ThenInsert(edits, a, b0, b[|b| - 1]);
      edits := edits + [Insert(|b0|, b[|b| - 1])];
    } else if b == "" || Dist(a, b) == Dist(a0, b) + 1 {
      edits := BestEdits(a0, b);
      DeleteThen(edits, a0, a[|a| - 1], b);
      edits := [Delete(|a0|)] + edits;
    } else {
      edits := BestEdits(a0, b0);
      if a[|a| - 1] == b[|b| - 1] {
        WithEnding(edits, a0, b0, [a[|a| - 1]]);
      } else {
        ThenSubstitute(edits, a0, a[|a| - 1], b0, b[|b| - 1]);
        edits := edits + [Substitute(|b0|, b[|b| - 1])];
      }
    }
  }

  /** n is the least number of edits that turn a into b. */
  ghost predicate LeastEdits(a: string, b: string, n: nat) {
    && (exists edits :: Turns(edits, a, b) && |edits| == n)
    && (forall edits :: Turns(edits, a, b) ==> n <= |edits|)
  }

  lemma DistIsLeast(a: string, b: string)
    ensures LeastEdits(a, b, Dist(a, b))
  {
    var edits := BestEdits(a, b);
    forall other | Turns(other, a, b)
      ensures Dist(a, b) <= |other|
    {
      NoFewerEdits(a, b, other);
    }
  }

  /** The distance of two prefixes, as far as the strings reach. */
  ghost function Cell(a: string, b: string, i: nat, j: nat): nat
    requires i <= |a| && j <= |b|
  {
    Dist(a[..i], b[..j])
  }

  /** The table's rule for one cell, diagonal shortcut included. */
  lemma CellRule(a: string, b: string, i: nat, j: nat)
    requires i <= |a| && j <= |b|
    ensures Cell(a, b, i, j) ==
      if i == 0 then j else if j == 0 then i
      else if a[i - 1] == b[j - 1] then Cell(a, b, i - 1, j - 1)
      else 1 + Min(Min(Cell(a, b, i, j - 1), Cell(a, b, i - 1, j)), Cell(a, b, i - 1, j - 1))
  {
    if i > 0 && j > 0 {
      var a0, b0 := a[..i - 1], b[..j - 1];
      assert a[..i] == a0 + [a[i - 1]] && b[..j] == b0 + [b[j - 1]];
      assert a[..i][..i - 1] == a0 && b[..j][..j - 1] == b0;
      if a[i - 1] == b[j - 1] {
        DiagonalIsOptimal(a0, b0, a[i - 1]);
      }
    }
  }

  /** getLevenshteinDist fills the table row by row. */
  method GetLevenshteinDist(string1: string, string2: string) returns (distance: nat)
    ensures LeastEdits(string1, string2, distance)
  {
    hide Dist, LeastEdits, Cell;
    var n1, n2 := |string1| + 1, |string2| + 1;
    var matrix := new nat[n1, n2]((_, _) => 0);
    for i := 0 to n1
      invariant forall p, q :: 0 <= p < i && 0 <= q < n2 ==> matrix[p, q] == Cell(string1, string2, p, q)
    {
      for j := 0 to n2
        invariant forall p, q :: 0 <= p < i && 0 <= q < n2 ==> matrix[p, q] == Cell(string1, string2, p, q)
        invariant forall q :: 0 <= q < j ==> matrix[i, q] == Cell(string1, string2, i, q)
      {
        CellRule(string1, string2, i, j);
        if i == 0 {
          matrix[i, j] := j;
        } else if j == 0 {
          matrix[i, j] := i;
        } else if string1[i - 1] == string2[j - 1] {
          matrix[i, j] := matrix[i - 1, j - 1];
        } else {
          matrix[i, j] := 1 + Min(Min(matrix[i, j - 1], matrix[i - 1, j]), matrix[i - 1, j - 1]);
        }
      }
    }
    distance := matrix[|string1|, |string2|];
    DistIsLeast(string1, string2);
    WholeCell(string1, string2);
  }

  lemma WholeCell(a: string, b: string)
    ensures Cell(a, b, |a|, |b|) == Dist(a, b)
  {
    assert a[..|a|] == a && b[..|b|] == b;
  }
}
