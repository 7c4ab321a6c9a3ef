/**
 * `Zip2WithNilPadding`: pairs two sequences element by element out to the
 * length of the longer one, with nil standing in for the side that has run
 * out. The pairs are specified by the function `PaddedZip`; the iterator
 * that `makeIterator()` returns is the class `PaddedZipIterator`.
 */
module ZipNilPadding {
  import opened Wrappers
  import opened BoundsChecked

  /** One element of the zipped sequence. */
  type Pair<T> = (Option<T>, Option<T>)

  function Max(a: int, b: int): (m: int) {
    if a < b then b else a
  }

  /** The elements an array iterator still holds after one `next()`; an exhausted iterator stays exhausted. */
  function Advance<T>(rest: seq<T>): (remaining: seq<T>) {
    if |rest| == 0 then [] else rest[1..]
  }

  /**
   * The pairs the zipped sequence yields, in order: each step takes the
   * next element of both sides (nil for a side that is exhausted), and the
   * sequence ends at the first step where both sides are exhausted.
   */
  function PaddedZip<T>(first: seq<T>, second: seq<T>): (pairs: seq<Pair<T>>)
    decreases |first| + |second|
  {
    if |first| == 0 && |second| == 0 then []
    else [(Checked(first, 0), Checked(second, 0))] + PaddedZip(Advance(first), Advance(second))
  }

  /** There are as many pairs as the longer side has elements, and pair `i` holds element `i` of each side, or nil past its end. */
  lemma {:induction false} PaddedZipAt<T>(first: seq<T>, second: seq<T>, i: int)
    requires 0 <= i < Max(|first|, |second|)
    ensures |PaddedZip(first, second)| == Max(|first|, |second|)
    ensures PaddedZip(first, second)[i] == (Checked(first, i), Checked(second, i))
    decreases |first| + |second|
  {
    if i == 0 {
      if Max(|first|, |second|) > 1 {
        PaddedZipAt(Advance(first), Advance(second), 0);
      } else {
        assert Advance(first) == [] && Advance(second) == [];
      }
    } else {
      PaddedZipAt(Advance(first), Advance(second), i - 1);
    }
  }

  lemma PaddedZipLength<T>(first: seq<T>, second: seq<T>)
    ensures |PaddedZip(first, second)| == Max(|first|, |second|)
  {
    if Max(|first|, |second|) > 0 {
      PaddedZipAt(first, second, 0);
    }
  }

  /** A pair with nil on both sides is never yielded. */
  lemma PaddedZipNeverBothNil<T>(first: seq<T>, second: seq<T>, i: int)
    requires 0 <= i < |PaddedZip(first, second)|
    ensures PaddedZip(first, second)[i].0.Some? || PaddedZip(first, second)[i].1.Some?
  {
    PaddedZipLength(first, second);
    PaddedZipAt(first, second, i);
  }

  /** The non-nil first components of `pairs`, in order. */
  function Lefts<T>(pairs: seq<Pair<T>>): (lefts: seq<T>)
    decreases |pairs|
  {
    if |pairs| == 0 then []
    else (if pairs[0].0.Some? then [pairs[0].0.value] else []) + Lefts(pairs[1..])
  }

  /** The non-nil second components of `pairs`, in order. */
  function Rights<T>(pairs: seq<Pair<T>>): (rights: seq<T>)
    decreases |pairs|
  {
    if |pairs| == 0 then []
    else (if pairs[0].1.Some? then [pairs[0].1.value] else []) + Rights(pairs[1..])
  }

  /** Dropping the nils from either side of the zipped sequence gives that side back. */
  lemma PaddedZipProjections<T>(first: seq<T>, second: seq<T>)
    ensures Lefts(PaddedZip(first, second)) == first
    ensures Rights(PaddedZip(first, second)) == second
  {
    LeftsOfPaddedZip(first, second);
    RightsOfPaddedZip(first, second);
  }

  lemma {:induction false} LeftsOfPaddedZip<T>(first: seq<T>, second: seq<T>)
    ensures Lefts(PaddedZip(first, second)) == first
    decreases |first| + |second|
  {
    if |first| + |second| > 0 {
      var pairs := PaddedZip(first, second);
      assert pairs[0].0 == Checked(first, 0);
      assert pairs[1..] == PaddedZip(Advance(first), Advance(second));
      LeftsOfPaddedZip(Advance(first), Advance(second));
      if |first| > 0 {
        assert first == [first[0]] + Advance(first);
      }
    }
  }

  lemma {:induction false} RightsOfPaddedZip<T>(first: seq<T>, second: seq<T>)
    ensures Rights(PaddedZip(first, second)) == second
    decreases |first| + |second|
  {
    if |first| + |second| > 0 {
      var pairs := PaddedZip(first, second);
      assert pairs[0].1 == Checked(second, 0);
      assert pairs[1..] == PaddedZip(Advance(first), Advance(second));
      RightsOfPaddedZip(Advance(first), Advance(second));
      if |second| > 0 {
        assert second == [second[0]] + Advance(second);
      }
    }
  }

  /**
   * The iterator `Zip2WithNilPadding(first, second).makeIterator()`. It
   * captures one iterator per side (`iterator1`, `iterator2`), modelled by
   * the elements each has yet to produce, and advances both on every
   * `next()`. The captured iterators are Swift optionals that are never set
   * to nil, so they are plain fields here.
   */
  class PaddedZipIterator<T> {
    const first: seq<T>
    const second: seq<T>
    var iterator1: seq<T>
    var iterator2: seq<T>
    /** How many pairs `Next` has yielded so far. */
    ghost var produced: nat

    ghost predicate Valid()
      reads this
    {
      && produced <= |PaddedZip(first, second)|
      && PaddedZip(iterator1, iterator2) == PaddedZip(first, second)[produced..]
    }

    constructor (first: seq<T>, second: seq<T>)
      ensures Valid()
      ensures this.first == first && this.second == second && produced == 0
    {
      this.first := first;
      this.second := second;
      iterator1 := first;
      iterator2 := second;
      produced := 0;
    }

    /** The iterator's `next()`: the next pair of the zipped sequence, or nil once both sides are exhausted. */
    method Next() returns (element: Option<Pair<T>>)
      requires Valid()
      modifies this
      ensures Valid()
      ensures element == Checked(PaddedZip(first, second), old(produced))
      ensures produced == if element.None? then old(produced) else old(produced) + 1
    {
      var element1 := Checked(iterator1, 0);
      iterator1 := Advance(iterator1);
      var element2 := Checked(iterator2, 0);
      iterator2 := Advance(iterator2);
      if element1.None? && element2.None? {
        element := None;
      } else {
        element := Some((element1, element2));
        produced := produced + 1;
      }
    }
  }

  /** Iterating a fresh `Zip2WithNilPadding(first, second)` to the end, as `map` does, collecting every pair it yields. */
  method Collect<T>(first: seq<T>, second: seq<T>) returns (pairs: seq<Pair<T>>)
    ensures pairs == PaddedZip(first, second)
  {
    var zipped := new PaddedZipIterator(first, second);
    pairs := [];
    while true
      invariant fresh(zipped) && zipped.Valid()
      invariant zipped.first == first && zipped.second == second
      invariant pairs == PaddedZip(first, second)[..zipped.produced]
      decreases |PaddedZip(first, second)| - zipped.produced
    {
      var next := zipped.Next();
      if next.None? {
        break;
      }
      pairs := pairs + [next.value];
    }
  }
}
