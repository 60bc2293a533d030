/**
 * The result lists that nested loops over index pairs build by appending, one
 * pair at a time, whatever a pair contributes. The aspect detectors walk the
 * pairs i < j of one list ("triangle") or every pair of two lists ("rectangle");
 * the facts here do not depend on what a pair contributes.
 */
module PairSweeps {

  /** The contributions of the pairs (i, i + 1) .. (i, j - 1). */
  function TriangleRow<T>(f: (nat, nat) -> seq<T>, i: nat, j: nat): seq<T>
    decreases j
  {
    if j <= i + 1 then [] else TriangleRow(f, i, j - 1) + f(i, j - 1)
  }

  /** The contributions of every pair (r, m) with r < i and r < m < n, rows in order. */
  function TriangleUpTo<T>(f: (nat, nat) -> seq<T>, n: nat, i: nat): seq<T> {
    if i == 0 then [] else TriangleUpTo(f, n, i - 1) + TriangleRow(f, i - 1, n)
  }

  /** The contributions of the pairs i < j < n, in the order of the nested loops. */
  function Triangle<T>(f: (nat, nat) -> seq<T>, n: nat): seq<T> {
    TriangleUpTo(f, n, n)
  }

  /** The contributions of the pairs (i, 0) .. (i, j - 1). */
  function RectangleRow<T>(f: (nat, nat) -> seq<T>, i: nat, j: nat): seq<T> {
    if j == 0 then [] else RectangleRow(f, i, j - 1) + f(i, j - 1)
  }

  /** The contributions of every pair (r, m) with r < i and m < cols, rows in order. */
  function RectangleUpTo<T>(f: (nat, nat) -> seq<T>, cols: nat, i: nat): seq<T> {
    if i == 0 then [] else RectangleUpTo(f, cols, i - 1) + RectangleRow(f, i - 1, cols)
  }

  /** The contributions of every pair (i, j) with i < rows and j < cols, in the order of the nested loops. */
  function Rectangle<T>(f: (nat, nat) -> seq<T>, rows: nat, cols: nat): seq<T> {
    RectangleUpTo(f, cols, rows)
  }

  /** One more pass of the inner loop: the pair (i, j) extends the row built so far. */
  lemma TriangleRowExtend<T>(f: (nat, nat) -> seq<T>, i: nat, j: nat, row: seq<T>, found: seq<T>)
    requires i < j && row == TriangleRow(f, i, j) && found == f(i, j)
    ensures row + found == TriangleRow(f, i, j + 1)
  {
  }

  /** One more pass of the outer loop: the finished row i extends the rows before it. */
  lemma TriangleUpToExtend<T>(f: (nat, nat) -> seq<T>, n: nat, i: nat, done: seq<T>, row: seq<T>)
    requires done == TriangleUpTo(f, n, i) && row == TriangleRow(f, i, n)
    ensures done + row == TriangleUpTo(f, n, i + 1)
  {
  }

  /** One more pass of the inner loop over the second list: the pair (i, j) extends the row built so far. */
  lemma RectangleRowExtend<T>(f: (nat, nat) -> seq<T>, i: nat, j: nat, row: seq<T>, found: seq<T>)
    requires row == RectangleRow(f, i, j) && found == f(i, j)
    ensures row + found == RectangleRow(f, i, j + 1)
  {
  }

  /** One more pass of the outer loop over the first list: the finished row i extends the rows before it. */
  lemma RectangleUpToExtend<T>(f: (nat, nat) -> seq<T>, cols: nat, i: nat, done: seq<T>, row: seq<T>)
    requires done == RectangleUpTo(f, cols, i) && row == RectangleRow(f, i, cols)
    ensures done + row == RectangleUpTo(f, cols, i + 1)
  {
  }

  /** Whatever a row holds, some pair of the row contributed. */
  lemma {:induction false} TriangleRowSound<T>(f: (nat, nat) -> seq<T>, i: nat, j: nat, x: T) returns (m: nat)
    requires x in TriangleRow(f, i, j)
    ensures i < m < j && x in f(i, m)
    decreases j
  {
    InEither(TriangleRow(f, i, j - 1), f(i, j - 1), x);
    if x in TriangleRow(f, i, j - 1) {
      m := TriangleRowSound(f, i, j - 1, x);
    } else {
      m := j - 1;
    }
  }

  /** What a pair of the row contributes is in the row. */
  lemma {:induction false} TriangleRowComplete<T>(f: (nat, nat) -> seq<T>, i: nat, j: nat, m: nat, x: T)
    requires i < m < j && x in f(i, m)
    ensures x in TriangleRow(f, i, j)
    decreases j
  {
    if m < j - 1 {
      TriangleRowComplete(f, i, j - 1, m, x);
      InLeft(TriangleRow(f, i, j - 1), f(i, j - 1), x);
    } else {
      InRight(TriangleRow(f, i, j - 1), f(i, j - 1), x);
    }
  }

  /** Whatever the rows below i hold, some pair (r, m) with r < i and r < m < n contributed. */
  lemma {:induction false} TriangleUpToSound<T>(f: (nat, nat) -> seq<T>, n: nat, i: nat, x: T) returns (r: nat, m: nat)
    requires x in TriangleUpTo(f, n, i)
    ensures r < i && r < m < n && x in f(r, m)
  {
    InEither(TriangleUpTo(f, n, i - 1), TriangleRow(f, i - 1, n), x);
    if x in TriangleUpTo(f, n, i - 1) {
      r, m := TriangleUpToSound(f, n, i - 1, x);
    } else {
      r := i - 1;
      m := TriangleRowSound(f, i - 1, n, x);
    }
  }

  /** What a pair (r, m) with r < i and r < m < n contributes is in the rows below i. */
  lemma {:induction false} TriangleUpToComplete<T>(f: (nat, nat) -> seq<T>, n: nat, i: nat, r: nat, m: nat, x: T)
    requires r < i && r < m < n && x in f(r, m)
    ensures x in TriangleUpTo(f, n, i)
  {
    if r == i - 1 {
      TriangleRowComplete(f, r, n, m, x);
      InRight(TriangleUpTo(f, n, i - 1), TriangleRow(f, i - 1, n), x);
    } else {
      TriangleUpToComplete(f, n, i - 1, r, m, x);
      InLeft(TriangleUpTo(f, n, i - 1), TriangleRow(f, i - 1, n), x);
    }
  }

  /** The triangle holds exactly what the pairs i < j < n contribute. */
  lemma TriangleMembers<T>(f: (nat, nat) -> seq<T>, n: nat, x: T)
    ensures x in Triangle(f, n) <==> exists i: nat, j: nat :: i < j < n && x in f(i, j)
  {
    if x in Triangle(f, n) {
      var i, j := TriangleUpToSound(f, n, n, x);
    }
    if exists i: nat, j: nat :: i < j < n && x in f(i, j) {
      var i: nat, j: nat :| i < j < n && x in f(i, j);
      TriangleUpToComplete(f, n, n, i, j, x);
    }
  }

  /** Whatever a row of the rectangle holds, some pair of the row contributed. */
  lemma {:induction false} RectangleRowSound<T>(f: (nat, nat) -> seq<T>, i: nat, j: nat, x: T) returns (m: nat)
    requires x in RectangleRow(f, i, j)
    ensures m < j && x in f(i, m)
  {
    InEither(RectangleRow(f, i, j - 1), f(i, j - 1), x);
    if x in RectangleRow(f, i, j - 1) {
      m := RectangleRowSound(f, i, j - 1, x);
    } else {
      m := j - 1;
    }
  }

  /** What a pair of a rectangle row contributes is in the row. */
  lemma {:induction false} RectangleRowComplete<T>(f: (nat, nat) -> seq<T>, i: nat, j: nat, m: nat, x: T)
    requires m < j && x in f(i, m)
    ensures x in RectangleRow(f, i, j)
  {
    if m < j - 1 {
      RectangleRowComplete(f, i, j - 1, m, x);
      InLeft(RectangleRow(f, i, j - 1), f(i, j - 1), x);
    } else {
      InRight(RectangleRow(f, i, j - 1), f(i, j - 1), x);
    }
  }

  /** Whatever the rectangle rows below i hold, some pair (r, m) with r < i and m < cols contributed. */
  lemma {:induction false} RectangleUpToSound<T>(f: (nat, nat) -> seq<T>, cols: nat, i: nat, x: T) returns (r: nat, m: nat)
    requires x in RectangleUpTo(f, cols, i)
    ensures r < i && m < cols && x in f(r, m)
  {
    InEither(RectangleUpTo(f, cols, i - 1), RectangleRow(f, i - 1, cols), x);
    if x in RectangleUpTo(f, cols, i - 1) {
      r, m := RectangleUpToSound(f, cols, i - 1, x);
    } else {
      r := i - 1;
      m := RectangleRowSound(f, i - 1, cols, x);
    }
  }

  /** What a pair (r, m) with r < i and m < cols contributes is in the rectangle rows below i. */
  lemma {:induction false} RectangleUpToComplete<T>(f: (nat, nat) -> seq<T>, cols: nat, i: nat, r: nat, m: nat, x: T)
    requires r < i && m < cols && x in f(r, m)
    ensures x in RectangleUpTo(f, cols, i)
  {
    if r == i - 1 {
      RectangleRowComplete(f, r, cols, m, x);
      InRight(RectangleUpTo(f, cols, i - 1), RectangleRow(f, i - 1, cols), x);
    } else {
      RectangleUpToComplete(f, cols, i - 1, r, m, x);
      InLeft(RectangleUpTo(f, cols, i - 1), RectangleRow(f, i - 1, cols), x);
    }
  }

  /** The rectangle holds exactly what the pairs (i, j) with i < rows and j < cols contribute. */
  lemma RectangleMembers<T>(f: (nat, nat) -> seq<T>, rows: nat, cols: nat, x: T)
    ensures x in Rectangle(f, rows, cols) <==> exists i: nat, j: nat :: i < rows && j < cols && x in f(i, j)
  {
    if x in Rectangle(f, rows, cols) {
      var i, j := RectangleUpToSound(f, cols, rows, x);
    }
    if exists i: nat, j: nat :: i < rows && j < cols && x in f(i, j) {
      var i: nat, j: nat :| i < rows && j < cols && x in f(i, j);
      RectangleUpToComplete(f, cols, rows, i, j, x);
    }
  }

  /** Two sweeps whose pairs contribute alike on every row below i build the same list. */
  lemma {:induction false} TriangleUpToCongruent<T>(f: (nat, nat) -> seq<T>, g: (nat, nat) -> seq<T>, n: nat, i: nat)
    requires forall r: nat, m: nat :: r < m < n ==> f(r, m) == g(r, m)
    ensures TriangleUpTo(f, n, i) == TriangleUpTo(g, n, i)
  {
    if i > 0 {
      TriangleUpToCongruent(f, g, n, i - 1);
      TriangleRowCongruent(f, g, n, i - 1, n);
    }
  }

  lemma {:induction false} TriangleRowCongruent<T>(f: (nat, nat) -> seq<T>, g: (nat, nat) -> seq<T>, n: nat, i: nat, j: nat)
    requires forall r: nat, m: nat :: r < m < n ==> f(r, m) == g(r, m)
    requires j <= n
    ensures TriangleRow(f, i, j) == TriangleRow(g, i, j)
    decreases j
  {
    if j > i + 1 {
      TriangleRowCongruent(f, g, n, i, j - 1);
    }
  }

  /** Two triangles whose pairs contribute alike are equal. */
  lemma TriangleCongruent<T>(f: (nat, nat) -> seq<T>, g: (nat, nat) -> seq<T>, n: nat)
    requires forall r: nat, m: nat :: r < m < n ==> f(r, m) == g(r, m)
    ensures Triangle(f, n) == Triangle(g, n)
  {
    TriangleUpToCongruent(f, g, n, n);
  }

  /** The triangle over three items: the pairs (0, 1), (0, 2) and (1, 2), in that order. */
  lemma TriangleOfThree<T>(f: (nat, nat) -> seq<T>)
    ensures Triangle(f, 3) == f(0, 1) + f(0, 2) + f(1, 2)
  {
    assert TriangleRow(f, 0, 3) == [] + f(0, 1) + f(0, 2);
    assert TriangleRow(f, 1, 3) == [] + f(1, 2);
    assert TriangleUpTo(f, 3, 3) == [] + ([] + f(0, 1) + f(0, 2)) + ([] + f(1, 2)) + [];
  }

  lemma InLeft<T>(a: seq<T>, b: seq<T>, x: T)
    requires x in a
    ensures x in a + b
  {
    var k :| 0 <= k < |a| && a[k] == x;
    assert (a + b)[k] == x;
  }

  lemma InRight<T>(a: seq<T>, b: seq<T>, x: T)
    requires x in b
    ensures x in a + b
  {
    var k :| 0 <= k < |b| && b[k] == x;
    assert (a + b)[|a| + k] == x;
  }

  lemma InEither<T>(a: seq<T>, b: seq<T>, x: T)
    requires x in a + b
    ensures x in a || x in b
  {
    var k :| 0 <= k < |a + b| && (a + b)[k] == x;
    if k < |a| {
      assert a[k] == x;
    } else {
      assert b[k - |a|] == x;
    }
  }

  lemma ConcatAssoc<T>(a: seq<T>, b: seq<T>, c: seq<T>)
    ensures a + b + c == a + (b + c)
  {
  }
}
