/** Least sets closed under a successor function, and their description by chains of steps. */
module Reachability {

  /** S contains the seeds and every successor of its members. */
  ghost predicate Closed<T(!new)>(seeds: set<T>, next: T -> set<T>, S: set<T>) {
    seeds <= S && forall x :: x in S ==> next(x) <= S
  }

  /** What every closed set contains; `universe` is any closed set. */
  ghost function Closure<T(!new)>(universe: set<T>, seeds: set<T>, next: T -> set<T>): set<T> {
    set x | x in universe && forall S :: Closed(seeds, next, S) ==> x in S
  }

  lemma ClosureIsLeast<T(!new)>(universe: set<T>, seeds: set<T>, next: T -> set<T>, S: set<T>)
    requires Closed(seeds, next, S)
    ensures Closure(universe, seeds, next) <= S
  {
  }

  lemma ClosureIsClosed<T(!new)>(universe: set<T>, seeds: set<T>, next: T -> set<T>)
    requires Closed(seeds, next, universe)
    ensures Closed(seeds, next, Closure(universe, seeds, next))
  {
    forall x, y | x in Closure(universe, seeds, next) && y in next(x) ensures y in Closure(universe, seeds, next) {
      assert next(x) <= universe;
      forall S | Closed(seeds, next, S) ensures y in S {
        assert next(x) <= S;
      }
    }
  }

  /** A chain from a seed, each element a successor of the one before. */
  ghost predicate Chain<T(!new)>(seeds: set<T>, next: T -> set<T>, path: seq<T>) {
    && path != []
    && path[0] in seeds
    && forall i :: 0 <= i < |path| - 1 ==> path[i + 1] in next(path[i])
  }

  ghost predicate Reaches<T(!new)>(seeds: set<T>, next: T -> set<T>, x: T) {
    exists path :: Chain(seeds, next, path) && path[|path| - 1] == x
  }

  lemma {:induction false} ChainStaysInside<T(!new)>(seeds: set<T>, next: T -> set<T>, path: seq<T>, S: set<T>)
    requires Chain(seeds, next, path) && Closed(seeds, next, S)
    ensures path[|path| - 1] in S
    decreases |path|
  {
    if |path| > 1 {
      var prefix := path[..|path| - 1];
      assert Chain(seeds, next, prefix);
      ChainStaysInside(seeds, next, prefix, S);
      assert path[|path| - 2 + 1] in next(path[|path| - 2]);
    }
  }

  lemma ChainExtends<T(!new)>(seeds: set<T>, next: T -> set<T>, path: seq<T>, y: T)
    requires Chain(seeds, next, path) && y in next(path[|path| - 1])
    ensures Chain(seeds, next, path + [y])
  {
    var longer := path + [y];
    forall i | 0 <= i < |longer| - 1 ensures longer[i + 1] in next(longer[i]) {
      if i < |path| - 1 { assert path[i + 1] in next(path[i]); }
    }
  }

  /** The closure is exactly what can be reached from the seeds in finitely many steps. */
  lemma ClosureIsReachable<T(!new)>(universe: set<T>, seeds: set<T>, next: T -> set<T>, x: T)
    requires Closed(seeds, next, universe)
    ensures x in Closure(universe, seeds, next) <==> Reaches(seeds, next, x)
  {
    if Reaches(seeds, next, x) {
      var path :| Chain(seeds, next, path) && path[|path| - 1] == x;
      forall S | Closed(seeds, next, S) ensures x in S {
        ChainStaysInside(seeds, next, path, S);
      }
      ChainStaysInside(seeds, next, path, universe);
    }
    if x in Closure(universe, seeds, next) {
      var S := set y | y in universe && Reaches(seeds, next, y);
      forall y | y in seeds ensures y in S { assert Chain(seeds, next, [y]) && [y][0] == y; }
      forall y, z | y in S && z in next(y) ensures z in S {
        var path :| Chain(seeds, next, path) && path[|path| - 1] == y;
        ChainExtends(seeds, next, path, z);
        assert (path + [z])[|path + [z]| - 1] == z;
        assert next(y) <= universe;
      }
      assert Closed(seeds, next, S);
    }
  }
}
