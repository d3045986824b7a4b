/**
 * Cursor directions, as both revisions of the program use them: an x and a
 * y step, the opposing direction, and the component-wise sum of a list.
 */
module Directions {
  /** A cursor direction: x and y steps. */
  type Direction = (int, int)

  /** The directly opposing direction. */
  function Neg(d: Direction): Direction
  {
    (-d.0, -d.1)
  }

  /** Component-wise addition. */
  function Plus(a: Direction, b: Direction): Direction
  {
    (a.0 + b.0, a.1 + b.1)
  }

  /** The sum of a list of directions. */
  function Sum(ds: seq<Direction>): Direction
  {
    if ds == [] then (0, 0) else Plus(Sum(ds[..|ds| - 1]), ds[|ds| - 1])
  }

  /** Adding v before or after y gives the same direction. */
  lemma PlusSwap(x: Direction, v: Direction, y: Direction)
    ensures Plus(Plus(x, v), y) == Plus(Plus(x, y), v)
  {
  }

  /** A middle term can be brought to the front of a sum of three. */
  lemma PlusRotate(p: Direction, k: Direction, q: Direction)
    ensures Plus(Plus(p, k), q) == Plus(k, Plus(p, q))
  {
  }

  /** Adding a direction and then its opposite changes nothing. */
  lemma PlusNegCancels(x: Direction, v: Direction)
    ensures Plus(Plus(x, v), Neg(v)) == x
  {
  }

  lemma SumSnoc(s: seq<Direction>, d: Direction)
    ensures Sum(s + [d]) == Plus(Sum(s), d)
  {
    assert (s + [d])[..|s|] == s;
  }

  lemma SumSingle(d: Direction)
    ensures Sum([d]) == d
  {
    assert [d][..0] == [];
  }

  lemma {:induction false} SumAppend(a: seq<Direction>, b: seq<Direction>)
    ensures Sum(a + b) == Plus(Sum(a), Sum(b))
    decreases |b|
  {
    if b != [] {
      var front := b[..|b| - 1];
      var last := b[|b| - 1];
      assert b == front + [last];
      assert a + b == (a + front) + [last];
      SumSnoc(a + front, last);
      SumSnoc(front, last);
      SumAppend(a, front);
    } else {
      assert a + b == a;
    }
  }

  lemma SumPrepend(x: Direction, t: seq<Direction>)
    ensures Sum([x] + t) == Plus(x, Sum(t))
  {
    SumAppend([x], t);
    SumSingle(x);
  }
}
