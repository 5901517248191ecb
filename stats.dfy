/** The statistics of a daily summary, over the sequences a bucket holds:
    the sum and mean of the temperatures, their extremes, and the most
    frequent condition label. */
module Stats {

  /** The sum of a sequence of temperatures. */
  function Sum(s: seq<real>): real
  {
    if s == [] then 0.0 else s[0] + Sum(s[1..])
  }

  /** Adding one more temperature adds it to the sum, as the running total
      over a bucket does. */
  lemma {:induction false} SumAppend(s: seq<real>, x: real)
    ensures Sum(s + [x]) == Sum(s) + x
  {
    if s == [] {
      assert [] + [x] == [x];
    } else {
      assert (s + [x])[1..] == s[1..] + [x];
      SumAppend(s[1..], x);
    }
  }

  /** The largest temperature: an element of the sequence that no element
      exceeds. */
  function Max(s: seq<real>): (m: real)
    requires |s| > 0
    ensures m in s
    ensures forall x :: x in s ==> x <= m
  {
    if |s| == 1 then s[0]
    else
      var rest := Max(s[1..]);
      assert s == [s[0]] + s[1..];
      if s[0] >= rest then s[0] else rest
  }

  /** The smallest temperature: an element of the sequence that exceeds no
      element. */
  function Min(s: seq<real>): (m: real)
    requires |s| > 0
    ensures m in s
    ensures forall x :: x in s ==> m <= x
  {
    if |s| == 1 then s[0]
    else
      var rest := Min(s[1..]);
      assert s == [s[0]] + s[1..];
      if s[0] <= rest then s[0] else rest
  }

  /** When every temperature lies between lo and hi, the sum lies between
      length times lo and length times hi. */
  lemma {:induction false} SumBetween(s: seq<real>, lo: real, hi: real)
    requires forall x :: x in s ==> lo <= x <= hi
    ensures (|s| as real) * lo <= Sum(s) <= (|s| as real) * hi
  {
    if s != [] {
      assert s[0] in s;
      assert forall x :: x in s[1..] ==> x in s;
      SumBetween(s[1..], lo, hi);
      ScaleSucc((|s| - 1) as real, lo);
      ScaleSucc((|s| - 1) as real, hi);
    }
  }

  /** Scaling by one more is scaling, then adding one more share. */
  lemma ScaleSucc(k: real, m: real)
    ensures (k + 1.0) * m == k * m + m
  {
  }

  /** The arithmetic mean of all the temperatures: mean times count is the
      sum. */
  function Average(s: seq<real>): (a: real)
    requires |s| > 0
    ensures a * (|s| as real) == Sum(s)
  {
    Sum(s) / (|s| as real)
  }

  /** A mean never leaves the range its temperatures lie in. */
  lemma AverageBetween(s: seq<real>, lo: real, hi: real)
    requires |s| > 0
    requires forall x :: x in s ==> lo <= x <= hi
    ensures lo <= Average(s) <= hi
  {
    SumBetween(s, lo, hi);
    MeanBounds(Sum(s), |s| as real, lo, hi);
  }

  /** The mean lies between the smallest and the largest temperature. */
  lemma AverageBetweenExtremes(s: seq<real>)
    requires |s| > 0
    ensures Min(s) <= Average(s) <= Max(s)
  {
    AverageBetween(s, Min(s), Max(s));
  }

  /** Dividing a total that lies between n * lo and n * hi by a positive n
      gives a value between lo and hi. */
  lemma MeanBounds(total: real, n: real, lo: real, hi: real)
    requires n > 0.0 && n * lo <= total <= n * hi
    ensures lo <= total / n <= hi
  {
  }

  /** How many times a label occurs in a sequence, as counting the elements
      of a list does. */
  function Count<T(==)>(xs: seq<T>, x: T): (r: nat)
    ensures r <= |xs|
    ensures r > 0 <==> x in xs
  {
    if xs == [] then 0 else (if xs[0] == x then 1 else 0) + Count(xs[1..], x)
  }

  /** The count is the label's multiplicity in the multiset of the sequence. */
  lemma {:induction false} CountIsMultiplicity<T>(xs: seq<T>, x: T)
    ensures Count(xs, x) == multiset(xs)[x]
  {
    if xs != [] {
      CountIsMultiplicity(xs[1..], x);
      assert xs == [xs[0]] + xs[1..];
      assert multiset(xs) == multiset([xs[0]]) + multiset(xs[1..]);
    }
  }

  /** Among the candidates, one whose count in `xs` is the highest; on a tie
      the earliest such candidate. */
  function MostFrequent<T(==)>(candidates: seq<T>, xs: seq<T>): (r: T)
    requires |candidates| > 0
    ensures r in candidates
    ensures forall c :: c in candidates ==> Count(xs, c) <= Count(xs, r)
  {
    if |candidates| == 1 then candidates[0]
    else
      var rest := MostFrequent(candidates[1..], xs);
      assert candidates == [candidates[0]] + candidates[1..];
      if Count(xs, candidates[0]) >= Count(xs, rest) then candidates[0] else rest
  }

  /** The dominant condition: a recorded label whose occurrence count is at
      least that of every recorded label. */
  function Dominant<T(==)>(xs: seq<T>): (r: T)
    requires |xs| > 0
    ensures r in xs
    ensures forall c :: c in xs ==> Count(xs, c) <= Count(xs, r)
  {
    MostFrequent(xs, xs)
  }

  /** The dominant condition is determined whenever one label occurs strictly
      more often than every other; only ties leave the choice open. */
  lemma DominantOfStrictMaximum<T>(xs: seq<T>, d: T)
    requires d in xs
    requires forall c :: c in xs && c != d ==> Count(xs, c) < Count(xs, d)
    ensures Dominant(xs) == d
  {
  }
}
