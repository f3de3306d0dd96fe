/**
  Marbles and the bag they sit in.

  A bag is an ordered sequence of colours, the order being the one the
  Fisher–Yates shuffle left behind. This module builds the preset bags
  (`originalMarbles`), shuffles a copy of them (`resetBag`) with the random
  swap indices passed in as a parameter, and removes one marble the way
  `Array.prototype.splice(idx, 1)` does.
 */
module Marbles {

  datatype Color = Red | Blue

  type Bag = seq<Color>

  /** `n` marbles of colour `c`: one of the `push` loops that build the bag. */
  function Repeat(c: Color, n: nat): (r: Bag)
    ensures |r| == n
    ensures forall k | 0 <= k < n :: r[k] == c
    ensures multiset(r) == multiset{}[c := n]
  {
    RepeatCount(c, n);
    seq(n, _ => c)
  }

  /** `n` copies of `c` hold `c` exactly `n` times and nothing else. */
  lemma {:induction false} RepeatCount(c: Color, n: nat)
    ensures multiset(seq(n, _ => c)) == multiset{}[c := n]
  {
    if n > 0 {
      RepeatCount(c, n - 1);
      assert seq(n, _ => c) == seq(n - 1, _ => c) + [c];
    }
  }

  /** `red` red marbles followed by `blue` blue ones. */
  function Fill(red: nat, blue: nat): (r: Bag)
    ensures |r| == red + blue
    ensures multiset(r)[Red] == red && multiset(r)[Blue] == blue
  {
    Repeat(Red, red) + Repeat(Blue, blue)
  }

  /** How many red marbles `b` holds. */
  function RedCount(b: Bag): nat
  {
    multiset(b)[Red]
  }

  /** The ES6 swap `[b[i], b[j]] = [b[j], b[i]]`. */
  function Swap(b: Bag, i: nat, j: nat): (r: Bag)
    requires i < |b| && j < |b|
    ensures |r| == |b| && multiset(r) == multiset(b)
    ensures r[i] == b[j] && r[j] == b[i]
    ensures forall k | 0 <= k < |b| && k != i && k != j :: r[k] == b[k]
  {
    b[i := b[j]][j := b[i]]
  }

  /**
    The random choices one run of the shuffle over `n` marbles consumes:
    `js[i]` is the `floor(random(i + 1))` drawn when the loop stands at
    position `i`, so `0 <= js[i] <= i`. The loop stops before position 0,
    so `js[0]` is never read (and can only be 0).
   */
  predicate ValidSwaps(js: seq<nat>, n: nat)
  {
    |js| == n && forall i | 0 <= i < n :: js[i] <= i
  }

  /**
    The Fisher–Yates loop over positions `|js| - 1` down to 1: swap position
    `i` with `js[i]`, then continue with the positions below `i`.
    Positions from `|js|` on are never touched.
   */
  function ShuffleDown(b: Bag, js: seq<nat>): (r: Bag)
    requires |js| <= |b|
    requires forall i | 0 <= i < |js| :: js[i] <= i
    ensures |r| == |b|
    ensures multiset(r) == multiset(b)
    ensures r[|js|..] == b[|js|..]
    decreases |js|
  {
    if |js| <= 1 then b
    else
      var i := |js| - 1;
      ShuffleDown(Swap(b, i, js[i]), js[..i])
  }

  /** `resetBag`: a shuffled copy of `original`. The result is a permutation of it. */
  function Shuffle(original: Bag, js: seq<nat>): (r: Bag)
    requires ValidSwaps(js, |original|)
    ensures |r| == |original|
    ensures multiset(r) == multiset(original)
  {
    ShuffleDown(original, js)
  }

  /** A prefix of length at most one has a single arrangement. */
  lemma ShortPrefixFixed(b: Bag, t: Bag, k: nat)
    requires |b| == |t| && k <= 1 && k <= |b|
    requires b[k..] == t[k..]
    requires multiset(b[..k]) == multiset(t[..k])
    ensures b == t
  {
    if k == 1 {
      assert b[..1] == [b[0]] && t[..1] == [t[0]];
      assert b[0] in multiset{t[0]};
      assert b == b[..1] + b[1..] && t == t[..1] + t[1..];
    } else {
      assert b == b[0..] && t == t[0..];
    }
  }

  /** Removing the same last marble from two permutations leaves permutations. */
  lemma DropLast(a: Bag, b: Bag, c: Color)
    requires multiset(a + [c]) == multiset(b + [c])
    ensures multiset(a) == multiset(b)
  {
    assert multiset(a + [c]) == multiset(a) + multiset{c};
    assert multiset(b + [c]) == multiset(b) + multiset{c};
    assert multiset(a) == multiset(a + [c]) - multiset{c};
  }

  /** A swap inside the prefix `b[..i + 1]` is a swap of that prefix. */
  lemma SwapPrefix(b: Bag, i: nat, j: nat)
    requires j <= i < |b|
    ensures Swap(b, i, j)[..i + 1] == Swap(b[..i + 1], i, j)
    ensures Swap(b, i, j)[i + 1..] == b[i + 1..]
  {
    assert Swap(b, i, j)[i + 1..] == b[i + 1..];
  }

  /**
    Swapping a marble of colour `t[i]` into position `i` leaves the
    positions from `i` on agreeing with `t` and the prefix before `i` a
    permutation of `t[..i]`.
   */
  lemma SwapIntoPlace(b: Bag, t: Bag, i: nat, j: nat)
    requires |b| == |t| && j <= i < |b|
    requires b[i + 1..] == t[i + 1..]
    requires multiset(b[..i + 1]) == multiset(t[..i + 1])
    requires b[j] == t[i]
    ensures Swap(b, i, j)[i..] == t[i..]
    ensures multiset(Swap(b, i, j)[..i]) == multiset(t[..i])
  {
    var b' := Swap(b, i, j);
    SwapPrefix(b, i, j);
    assert multiset(b'[..i + 1]) == multiset(b[..i + 1]);
    assert b'[..i + 1] == b'[..i] + [t[i]];
    assert t[..i + 1] == t[..i] + [t[i]];
    DropLast(b'[..i], t[..i], t[i]);
    assert b'[i..] == [b'[i]] + b'[i + 1..];
    assert t[i..] == [t[i]] + t[i + 1..];
  }

  /** Some position up to `i` of `b` holds the colour `t[i]`. */
  lemma FindColor(b: Bag, t: Bag, i: nat) returns (j: nat)
    requires i < |b| && i < |t|
    requires multiset(b[..i + 1]) == multiset(t[..i + 1])
    ensures j <= i && b[j] == t[i]
  {
    assert t[..i + 1][i] == t[i];
    assert t[i] in multiset(b[..i + 1]);
    assert t[i] in b[..i + 1];
    j :| 0 <= j < i + 1 && b[..i + 1][j] == t[i];
  }

  /** Adding the choice `j` for the next position up runs one swap before `js'`. */
  lemma ExtendSwaps(b: Bag, js': seq<nat>, j: nat) returns (js: seq<nat>)
    requires |js'| < |b| && j <= |js'|
    requires forall m | 0 <= m < |js'| :: js'[m] <= m
    ensures js == js' + [j]
    ensures forall m | 0 <= m < |js| :: js[m] <= m
    ensures |js'| > 0 ==> ShuffleDown(b, js) == ShuffleDown(Swap(b, |js'|, j), js')
  {
    js := js' + [j];
    assert js[..|js'|] == js';
  }

  /**
    Every arrangement of the prefix `b[..k]` is produced by some choice of
    swap indices for positions `k - 1` down to 1.
   */
  lemma {:induction false} ShuffleDownReaches(b: Bag, t: Bag, k: nat) returns (js: seq<nat>)
    requires |b| == |t| && k <= |b|
    requires b[k..] == t[k..]
    requires multiset(b[..k]) == multiset(t[..k])
    ensures |js| == k
    ensures forall i | 0 <= i < k :: js[i] <= i
    ensures ShuffleDown(b, js) == t
    decreases k
  {
    if k <= 1 {
      ShortPrefixFixed(b, t, k);
      js := if k == 0 then [] else [0];
    } else {
      var i := k - 1;
      var j := FindColor(b, t, i);
      SwapIntoPlace(b, t, i, j);
      var b' := Swap(b, i, j);
      var js' := ShuffleDownReaches(b', t, i);
      js := ExtendSwaps(b, js', j);
    }
  }

  /**
    The shuffle can produce every ordering of the original marbles: for each
    permutation `t` of `original` some admissible swap indices yield exactly `t`.
   */
  lemma ShuffleReachesEveryOrder(original: Bag, t: Bag)
    requires multiset(t) == multiset(original)
    ensures exists js :: ValidSwaps(js, |original|) && Shuffle(original, js) == t
  {
    assert |t| == |multiset(t)| == |original|;
    assert original[..|original|] == original && t[..|t|] == t;
    var js := ShuffleDownReaches(original, t, |original|);
    assert ValidSwaps(js, |original|) && Shuffle(original, js) == t;
  }

  /** `b.splice(idx, 1)`: drops the marble at `idx`, the others keep their order. */
  function RemoveAt(b: Bag, idx: nat): (r: Bag)
    requires idx < |b|
    ensures |r| == |b| - 1
    ensures forall k | 0 <= k < idx :: r[k] == b[k]
    ensures forall k | idx <= k < |r| :: r[k] == b[k + 1]
    ensures multiset(r) + multiset{b[idx]} == multiset(b)
  {
    assert b == b[..idx] + [b[idx]] + b[idx + 1..];
    b[..idx] + b[idx + 1..]
  }
}
