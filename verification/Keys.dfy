/** Two names joined by a separator into one map key, and exactly when two joins can be confused. */
module Keys {

  function Join(sep: char, first: string, second: string): (key: string)
    ensures |key| == |first| + 1 + |second|
  {
    first + [sep] + second
  }

  /** The first name, followed by the separator, begins the other one. */
  predicate Extends(sep: char, short: string, long: string) {
    short + [sep] <= long
  }

  lemma JoinSplits(sep: char, first: string, second: string)
    ensures Join(sep, first, second)[..|first|] == first
    ensures Join(sep, first, second)[|first|] == sep
    ensures Join(sep, first, second)[|first| + 1..] == second
  {
  }

  /** Equal keys come from equal names, unless one first name extends the other past the separator. */
  lemma JoinInjective(sep: char, a: string, x: string, b: string, y: string)
    requires Join(sep, a, x) == Join(sep, b, y)
    ensures (a == b && x == y) || Extends(sep, a, b) || Extends(sep, b, a)
  {
    JoinSplits(sep, a, x);
    JoinSplits(sep, b, y);
    var key := Join(sep, a, x);
    if |a| < |b| {
      assert b[..|a| + 1] == key[..|a| + 1] == a + [sep];
    } else if |b| < |a| {
      assert a[..|b| + 1] == key[..|b| + 1] == b + [sep];
    }
  }

  /** The keys of two different first names can collide, over all second names, exactly when one extends the other. */
  lemma JoinCollides(sep: char, a: string, b: string)
    ensures (exists x: string, y: string :: (a != b || x != y) && Join(sep, a, x) == Join(sep, b, y))
      <==> Extends(sep, a, b) || Extends(sep, b, a)
  {
    if Extends(sep, a, b) {
      var x := b[|a| + 1..] + [sep];
      assert Join(sep, a, x) == Join(sep, b, []);
    } else if Extends(sep, b, a) {
      var y := a[|b| + 1..] + [sep];
      assert Join(sep, a, []) == Join(sep, b, y);
    }
    forall x: string, y: string | (a != b || x != y) && Join(sep, a, x) == Join(sep, b, y)
      ensures Extends(sep, a, b) || Extends(sep, b, a)
    {
      JoinInjective(sep, a, x, b, y);
    }
  }
}
