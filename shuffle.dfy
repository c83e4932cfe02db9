/**
 * `shufflePieces(pieces, cols, deterministic, seed)`: copies the pieces, reorders
 * the copy, then gives the piece at index `k` the current position
 * `(floor(k / cols), k % cols)`.
 *
 * The copy is reordered by a Fisher–Yates pass driven by `seededRandom(seed)`
 * only when `deterministic` is true and `seed` is truthy; otherwise it is sorted
 * with a random comparator, which yields some permutation of the copy. That
 * permutation is a parameter here (`sorted`), as is the seeded generator.
 */
module Shuffle {
  import opened Wrappers
  import opened Tiling
  import opened Randomness

  /** Exchanges the elements at `i` and `j` (a no-op when they are equal). */
  function Swap<T>(s: seq<T>, i: nat, j: nat): (r: seq<T>)
    requires i < |s| && j < |s|
    ensures |r| == |s|
  {
    s[i := s[j]][j := s[i]]
  }

  lemma SwapPermutes<T>(s: seq<T>, i: nat, j: nat)
    requires i < |s| && j < |s|
    ensures multiset(Swap(s, i, j)) == multiset(s)
  {
  }

  /**
   * The Fisher–Yates pass from index `i` down to 1: index `i` is swapped with
   * `floor(draws(k) * (i + 1))`, and the next index uses the next draw.
   */
  function FisherYatesFrom<T>(s: seq<T>, i: nat, k: nat, draws: Draws): seq<T>
    requires i < |s| && UnitDraws(draws)
    decreases i
  {
    if i == 0 then s
    else FisherYatesFrom(Swap(s, i, ScaledIndex(draws(k), i + 1)), i - 1, k + 1, draws)
  }

  /** The whole pass, from the last index down, starting at draw 0. */
  function FisherYates<T>(s: seq<T>, draws: Draws): seq<T>
    requires UnitDraws(draws)
  {
    if |s| == 0 then s else FisherYatesFrom(s, |s| - 1, 0, draws)
  }

  lemma {:induction false} FisherYatesFromPermutes<T>(s: seq<T>, i: nat, k: nat, draws: Draws)
    requires i < |s| && UnitDraws(draws)
    ensures |FisherYatesFrom(s, i, k, draws)| == |s|
    ensures multiset(FisherYatesFrom(s, i, k, draws)) == multiset(s)
    decreases i
  {
    if i > 0 {
      var swapped := Swap(s, i, ScaledIndex(draws(k), i + 1));
      SwapPermutes(s, i, ScaledIndex(draws(k), i + 1));
      FisherYatesFromPermutes(swapped, i - 1, k + 1, draws);
      assert FisherYatesFrom(s, i, k, draws) == FisherYatesFrom(swapped, i - 1, k + 1, draws);
    }
  }

  /** Fisher–Yates only moves elements around: the result is a permutation of the input. */
  lemma FisherYatesPermutes<T>(s: seq<T>, draws: Draws)
    requires UnitDraws(draws)
    ensures |FisherYates(s, draws)| == |s|
    ensures multiset(FisherYates(s, draws)) == multiset(s)
  {
    if |s| > 0 {
      FisherYatesFromPermutes(s, |s| - 1, 0, draws);
    }
  }

  /** The piece without its current position: what shuffling must keep. */
  function Unpositioned(p: Piece): Piece {
    p.(currentRow := 0, currentCol := 0)
  }

  function Keys(s: seq<Piece>): (r: seq<Piece>)
    ensures |r| == |s|
  {
    seq(|s|, k requires 0 <= k < |s| => Unpositioned(s[k]))
  }

  lemma KeysAppend(a: seq<Piece>, b: seq<Piece>)
    ensures Keys(a + b) == Keys(a) + Keys(b)
  {
  }

  /** Taking element `m` out of `t` takes its key out of the keys of `t`. */
  lemma KeysRemove(t: seq<Piece>, m: nat)
    requires m < |t|
    ensures multiset(Keys(t)) == multiset(Keys(t[..m] + t[m + 1..])) + multiset{Unpositioned(t[m])}
  {
    assert t == t[..m] + ([t[m]] + t[m + 1..]);
    KeysAppend(t[..m], [t[m]] + t[m + 1..]);
    KeysAppend([t[m]], t[m + 1..]);
    KeysAppend(t[..m], t[m + 1..]);
  }

  /** Multiset of a sequence with one occurrence taken out. */
  lemma MultisetRemove(t: seq<Piece>, m: nat)
    requires m < |t|
    ensures multiset(t[..m] + t[m + 1..]) == multiset(t) - multiset{t[m]}
  {
    assert t == t[..m] + [t[m]] + t[m + 1..];
  }

  /** Matching the first piece of `s` with an equal piece of `t` leaves two shorter rearrangements. */
  lemma PermutationStep(s: seq<Piece>, t: seq<Piece>, m: nat)
    requires multiset(s) == multiset(t) && |s| > 0 && m < |t| && t[m] == s[0]
    ensures multiset(s[1..]) == multiset(t[..m] + t[m + 1..])
  {
    MultisetRemove(t, m);
    assert s == [s[0]] + s[1..];
    assert multiset(s) == multiset{s[0]} + multiset(s[1..]);
  }

  lemma KeysFirst(s: seq<Piece>)
    requires |s| > 0
    ensures multiset(Keys(s)) == multiset(Keys(s[1..])) + multiset{Unpositioned(s[0])}
  {
    KeysRemove(s, 0);
    assert s[..0] + s[1..] == s[1..];
  }

  /** Rearranging the pieces rearranges their keys the same way. */
  lemma {:induction false} KeysPermutation(s: seq<Piece>, t: seq<Piece>)
    requires multiset(s) == multiset(t)
    ensures multiset(Keys(s)) == multiset(Keys(t))
    decreases |s|
  {
    if |s| == 0 {
      assert |t| == |multiset(t)| == 0;
    } else {
      assert s[0] in multiset(t);
      var m :| 0 <= m < |t| && t[m] == s[0];
      var rest := t[..m] + t[m + 1..];
      PermutationStep(s, t, m);
      KeysPermutation(s[1..], rest);
      KeysFirst(s);
      KeysRemove(t, m);
    }
  }

  /** The final `map`: the piece at index `k` is given current position `(k / cols, k % cols)`. */
  function Reposition(s: seq<Piece>, cols: int): (r: seq<Piece>)
    requires cols > 0
    ensures |r| == |s|
    ensures forall k :: 0 <= k < |s| ==> r[k].currentRow == k / cols && r[k].currentCol == k % cols
    ensures forall k :: 0 <= k < |s| ==> Unpositioned(r[k]) == Unpositioned(s[k])
  {
    seq(|s|, k requires 0 <= k < |s| => s[k].(currentRow := k / cols, currentCol := k % cols))
  }

  /** The seeded branch is taken only for a truthy seed (`null` and `0` are falsy). */
  predicate TakesSeededBranch(deterministic: bool, seed: Option<int>) {
    deterministic && seed.Some? && seed.value != 0
  }

  /** What `shufflePieces` returns. */
  function Shuffled(pieces: seq<Piece>, cols: int, deterministic: bool, seed: Option<int>,
                    seeded: int -> Draws, sorted: seq<Piece>): seq<Piece>
    requires cols > 0
    requires forall s :: UnitDraws(seeded(s))
  {
    if TakesSeededBranch(deterministic, seed) then Reposition(FisherYates(pieces, seeded(seed.value)), cols)
    else Reposition(sorted, cols)
  }

  /**
   * Shuffling yields a permutation of the input pieces in which only the current
   * positions change, and places the piece at index `k` at `(k / cols, k % cols)`.
   */
  lemma ShuffledIsPermutation(pieces: seq<Piece>, cols: int, deterministic: bool, seed: Option<int>,
                              seeded: int -> Draws, sorted: seq<Piece>)
    requires cols > 0
    requires forall s :: UnitDraws(seeded(s))
    requires multiset(sorted) == multiset(pieces)
    ensures var r := Shuffled(pieces, cols, deterministic, seed, seeded, sorted);
      && |r| == |pieces|
      && multiset(Keys(r)) == multiset(Keys(pieces))
      && (forall k :: 0 <= k < |r| ==> r[k].currentRow == k / cols && r[k].currentCol == k % cols)
  {
    var order := if TakesSeededBranch(deterministic, seed) then FisherYates(pieces, seeded(seed.value)) else sorted;
    if TakesSeededBranch(deterministic, seed) {
      FisherYatesPermutes(pieces, seeded(seed.value));
    } else {
      assert |sorted| == |multiset(sorted)| == |multiset(pieces)| == |pieces|;
    }
    var r := Reposition(order, cols);
    assert Keys(r) == Keys(order);
    KeysPermutation(order, pieces);
  }

  /** With a seed of 0 the seeded branch is skipped, even when `deterministic` is set. */
  lemma ZeroSeedIsNotSeeded(pieces: seq<Piece>, cols: int, seeded: int -> Draws, sorted: seq<Piece>)
    requires cols > 0
    requires forall s :: UnitDraws(seeded(s))
    ensures Shuffled(pieces, cols, true, Some(0), seeded, sorted) == Reposition(sorted, cols)
  {
  }

  /** The Fisher–Yates loop of `shufflePieces`, swapping in place. */
  method FisherYatesInPlace<T>(a: array<T>, random: Draws)
    requires UnitDraws(random)
    modifies a
    ensures a[..] == FisherYates(old(a[..]), random)
  {
    var n := a.Length;
    if n == 0 {
      return;
    }
    var i := n - 1;
    while i > 0
      invariant 0 <= i < n
      invariant FisherYatesFrom(a[..], i, n - 1 - i, random) == FisherYates(old(a[..]), random)
    {
      var j := ScaledIndex(random(n - 1 - i), i + 1);
      ghost var before := a[..];
      a[i], a[j] := a[j], a[i];
      assert a[..] == Swap(before, i, j);
      i := i - 1;
    }
  }

  /**
   * `shufflePieces`: the reordering works on a fresh copy of the input, which as a
   * sequence value cannot change.
   */
  method ShufflePieces(pieces: seq<Piece>, cols: int, deterministic: bool, seed: Option<int>,
                       seeded: int -> Draws, sorted: seq<Piece>) returns (r: seq<Piece>)
    requires cols > 0
    requires forall s :: UnitDraws(seeded(s))
    requires multiset(sorted) == multiset(pieces)
    ensures r == Shuffled(pieces, cols, deterministic, seed, seeded, sorted)
  {
    var n := |pieces|;
    var shuffled := new Piece[n](k requires 0 <= k < n => pieces[k]);
    assert shuffled[..] == pieces;
    if deterministic && seed.Some? && seed.value != 0 {
      FisherYatesInPlace(shuffled, seeded(seed.value));
    } else {
      assert |sorted| == |multiset(sorted)| == |multiset(pieces)| == n;
      forall k | 0 <= k < n {
        shuffled[k] := sorted[k];
      }
      assert shuffled[..] == sorted;
    }
    r := Reposition(shuffled[..], cols);
  }
}
