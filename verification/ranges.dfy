/** Character sets in bytecode: the intervals `re_emit_range` writes and the search that reads them. */
module RangeCode {
  import opened Instructions
  import opened Pattern

  const UINT32_MAX: int := 0xffff_ffff

  /** Points of a set in its canonical form: an even number of them, strictly increasing. */
  ghost predicate Canonical(points: seq<int>) {
    |points| % 2 == 0 &&
    (forall i :: 0 <= i < |points| ==> 0 <= points[i] <= UINT32_MAX) &&
    (forall i :: 0 < i < |points| ==> points[i - 1] < points[i])
  }

  /** Last character of an interval that ends before `end`, in 16 bits: 0xffff stands for no end. */
  function High16(end: int): int {
    if end - 1 == UINT32_MAX - 1 then 0xffff else end - 1
  }

  function Pairs16(points: seq<int>): (r: seq<(int, int)>)
    ensures |r| == |points| / 2
    ensures forall k :: 0 <= k < |r| ==> r[k] == (points[2 * k], High16(points[2 * k + 1]))
  {
    if |points| < 2 then [] else [(points[0], High16(points[1]))] + Pairs16(points[2..])
  }

  function Pairs32(points: seq<int>): (r: seq<(int, int)>)
    ensures |r| == |points| / 2
    ensures forall k :: 0 <= k < |r| ==> r[k] == (points[2 * k], points[2 * k + 1] - 1)
  {
    if |points| < 2 then [] else [(points[0], points[1] - 1)] + Pairs32(points[2..])
  }

  /** The last bound that matters for the choice between 16 and 32 bits. */
  function LastBound(points: seq<int>): int
    requires |points| >= 2
  {
    if points[|points| - 1] == UINT32_MAX then points[|points| - 2] else points[|points| - 1]
  }

  /** `re_emit_range`. */
  function SetCode(points: seq<int>): Instr {
    if |points| < 2 then Char32(UINT32_MAX)
    else if LastBound(points) <= 0xffff then Range(Pairs16(points))
    else Range32(Pairs32(points))
  }

  /** The binary search of the `range` opcodes over the intervals `lo` to `hi`. */
  function Search(pairs: seq<(int, int)>, c: int, lo: int, hi: int): bool
    requires 0 <= lo && hi < |pairs|
    decreases hi - lo + 1
  {
    if lo > hi then false
    else
      var mid := (lo + hi) / 2;
      if c < pairs[mid].0 then Search(pairs, c, lo, mid - 1)
      else if c > pairs[mid].1 then Search(pairs, c, mid + 1, hi)
      else true
  }

  /** What the `range` opcode does with a character. */
  function Accepts16(pairs: seq<(int, int)>, c: int): bool {
    var n := |pairs|;
    if n == 0 || c < pairs[0].0 then false
    else if c >= 0xffff && pairs[n - 1].1 == 0xffff then true
    else if c > pairs[n - 1].1 then false
    else Search(pairs, c, 0, n - 1)
  }

  /** What the `range32` opcode does with a character. */
  function Accepts32(pairs: seq<(int, int)>, c: int): bool {
    var n := |pairs|;
    if n == 0 || c < pairs[0].0 || c > pairs[n - 1].1 then false
    else Search(pairs, c, 0, n - 1)
  }

  /** The intervals are disjoint and increasing. */
  ghost predicate Ordered(pairs: seq<(int, int)>) {
    (forall k :: 0 <= k < |pairs| ==> pairs[k].0 <= pairs[k].1) &&
    (forall j, k :: 0 <= j < k < |pairs| ==> pairs[j].1 < pairs[k].0)
  }

  ghost predicate InPairs(pairs: seq<(int, int)>, c: int, lo: int, hi: int)
    requires 0 <= lo && hi < |pairs|
  {
    exists k :: lo <= k <= hi && pairs[k].0 <= c <= pairs[k].1
  }

  lemma {:induction false} SearchFinds(pairs: seq<(int, int)>, c: int, lo: int, hi: int)
    requires Ordered(pairs) && 0 <= lo && hi < |pairs|
    ensures Search(pairs, c, lo, hi) <==> InPairs(pairs, c, lo, hi)
    decreases hi - lo + 1
  {
    if lo <= hi {
      var mid := (lo + hi) / 2;
      if c < pairs[mid].0 {
        SearchFinds(pairs, c, lo, mid - 1);
        assert forall k :: mid <= k <= hi ==> c < pairs[k].0;
      } else if c > pairs[mid].1 {
        SearchFinds(pairs, c, mid + 1, hi);
        assert forall k :: lo <= k <= mid ==> pairs[k].1 < c;
      }
    }
  }

  lemma {:induction false} Increasing(points: seq<int>, i: nat, j: nat)
    requires Canonical(points) && i < j < |points|
    ensures points[i] < points[j]
    decreases j
  {
    if i < j - 1 {
      Increasing(points, i, j - 1);
    }
  }

  lemma CanonicalTail(points: seq<int>)
    requires Canonical(points) && points != []
    ensures Canonical(points[2..])
  {
    forall i | 0 < i < |points[2..]| ensures points[2..][i - 1] < points[2..][i] {
      assert points[2..][i - 1] == points[(i + 2) - 1];
    }
  }

  predicate Inside(points: seq<int>, k: nat, c: int)
    requires 2 * k + 1 < |points|
  {
    points[2 * k] <= c < points[2 * k + 1]
  }

  /** Membership is being inside one of the intervals. */
  lemma {:induction false} InSetIffInterval(points: seq<int>, c: int)
    requires Canonical(points)
    ensures InSet(points, c) <==> exists k: nat :: 2 * k + 1 < |points| && Inside(points, k, c)
  {
    if points != [] {
      var tail := points[2..];
      CanonicalTail(points);
      InSetIffInterval(tail, c);
      assert points[1..][1..] == tail;
      if c < points[1] {
        forall k: nat | 2 * k + 1 < |points| ensures Inside(points, k, c) ==> points[0] <= c {
          if k > 0 { Increasing(points, 0, 2 * k); }
        }
        assert Inside(points, 0, c) <==> points[0] <= c;
      } else {
        if InSet(tail, c) {
          var k: nat :| 2 * k + 1 < |tail| && Inside(tail, k, c);
          assert Inside(points, k + 1, c);
        }
        forall k: nat | 2 * k + 1 < |points| ensures Inside(points, k, c) ==> k > 0 && Inside(tail, k - 1, c) {}
      }
    }
  }

  lemma Pairs32Ordered(points: seq<int>)
    requires Canonical(points)
    ensures Ordered(Pairs32(points))
  {
    forall j, k | 0 <= j < k < |Pairs32(points)| ensures Pairs32(points)[j].1 < Pairs32(points)[k].0 {
      Increasing(points, 2 * j + 1, 2 * k);
    }
  }

  /** Only an interval without end is stored with 0xffff as its last character. */
  lemma Interval16(points: seq<int>, k: nat)
    requires Canonical(points) && points != [] && LastBound(points) <= 0xffff && 2 * k + 1 < |points|
    ensures points[2 * k] < points[2 * k + 1] && points[2 * k] <= 0xffff
    ensures points[2 * k + 1] == UINT32_MAX ==> 2 * k + 2 == |points| && High16(points[2 * k + 1]) == 0xffff
    ensures points[2 * k + 1] != UINT32_MAX ==> High16(points[2 * k + 1]) == points[2 * k + 1] - 1 < 0xffff
  {
    var n := |points|;
    Increasing(points, 2 * k, 2 * k + 1);
    if 2 * k + 2 < n {
      Increasing(points, 2 * k + 1, n - 2);
      Increasing(points, n - 2, n - 1);
    }
  }

  lemma Pairs16Ordered(points: seq<int>)
    requires Canonical(points) && points != [] && LastBound(points) <= 0xffff
    ensures Ordered(Pairs16(points))
  {
    var pairs := Pairs16(points);
    forall k | 0 <= k < |pairs| ensures pairs[k].0 <= pairs[k].1 {
      Interval16(points, k);
    }
    forall j, k | 0 <= j < k < |pairs| ensures pairs[j].1 < pairs[k].0 {
      Interval16(points, j);
      Increasing(points, 2 * j + 1, 2 * k);
    }
  }

  /** The 32-bit form accepts exactly the members of the set. */
  lemma RangeSearch32(points: seq<int>, c: int)
    requires Canonical(points) && points != [] && 0 <= c < UINT32_MAX
    ensures Accepts32(Pairs32(points), c) <==> InSet(points, c)
  {
    hide InSet, Search, Canonical;
    var pairs := Pairs32(points);
    InSetIffInterval(points, c);
    Pairs32Ordered(points);
    Accepts32Iff(pairs, c);
    if InSet(points, c) {
      var k: nat :| 2 * k + 1 < |points| && Inside(points, k, c);
      assert pairs[k].0 <= c <= pairs[k].1;
    }
    if exists k :: 0 <= k < |pairs| && pairs[k].0 <= c <= pairs[k].1 {
      var k :| 0 <= k < |pairs| && pairs[k].0 <= c <= pairs[k].1;
      assert Inside(points, k, c);
    }
  }

  lemma Accepts32Iff(pairs: seq<(int, int)>, c: int)
    requires Ordered(pairs)
    ensures Accepts32(pairs, c) <==> exists k :: 0 <= k < |pairs| && pairs[k].0 <= c <= pairs[k].1
  {
    if pairs != [] { SearchFinds(pairs, c, 0, |pairs| - 1); }
  }

  lemma Accepts16Iff(pairs: seq<(int, int)>, c: int)
    requires Ordered(pairs) && pairs != []
    ensures Accepts16(pairs, c) <==>
            (c >= pairs[0].0 && c >= 0xffff && pairs[|pairs| - 1].1 == 0xffff) ||
            exists k :: 0 <= k < |pairs| && pairs[k].0 <= c <= pairs[k].1
  {
    SearchFinds(pairs, c, 0, |pairs| - 1);
  }

  lemma Inside16(points: seq<int>, k: nat, c: int)
    requires Canonical(points) && points != [] && LastBound(points) <= 0xffff && 2 * k + 1 < |points| && 0 <= c < UINT32_MAX
    ensures var pair := Pairs16(points)[k];
            Inside(points, k, c) <==> pair.0 <= c && (c <= pair.1 || (c >= 0xffff && pair.1 == 0xffff))
    ensures 2 * k + 2 < |points| ==> Pairs16(points)[k].1 < 0xffff
  {
    Interval16(points, k);
  }

  /** The 16-bit form accepts exactly the members of the set, 0xffff as a last bound meaning no bound. */
  lemma RangeSearch16(points: seq<int>, c: int)
    requires Canonical(points) && points != [] && 0 <= c < UINT32_MAX && LastBound(points) <= 0xffff
    ensures Accepts16(Pairs16(points), c) <==> InSet(points, c)
  {
    hide InSet, Search, Accepts16, High16, LastBound;
    var pairs := Pairs16(points);
    InSetIffInterval(points, c);
    Pairs16Ordered(points);
    Accepts16Iff(pairs, c);
    if InSet(points, c) {
      var k: nat :| 2 * k + 1 < |points| && Inside(points, k, c);
      InsideAccepted(points, k, c);
    }
    AcceptedInside(points, c);
  }

  lemma InsideAccepted(points: seq<int>, k: nat, c: int)
    requires Canonical(points) && points != [] && LastBound(points) <= 0xffff && 2 * k + 1 < |points| && 0 <= c < UINT32_MAX && Inside(points, k, c)
    ensures var pairs := Pairs16(points);
            || pairs[k].0 <= c <= pairs[k].1
            || (c >= pairs[0].0 && c >= 0xffff && pairs[|pairs| - 1].1 == 0xffff)
  {
    hide High16, LastBound;
    Inside16(points, k, c);
    Pairs16Ordered(points);
    assert k > 0 ==> Pairs16(points)[0].1 < Pairs16(points)[k].0;
  }

  lemma AcceptedInside(points: seq<int>, c: int)
    requires Canonical(points) && points != [] && LastBound(points) <= 0xffff && 0 <= c < UINT32_MAX
    ensures forall k: nat :: k < |Pairs16(points)| && Pairs16(points)[k].0 <= c <= Pairs16(points)[k].1 ==> Inside(points, k, c)
    ensures var last := |Pairs16(points)| - 1;
            c >= 0xffff && Pairs16(points)[last].1 == 0xffff ==> Inside(points, last, c)
  {
    hide High16, LastBound;
    var pairs := Pairs16(points);
    forall k: nat | k < |pairs| && pairs[k].0 <= c <= pairs[k].1 ensures Inside(points, k, c) { Inside16(points, k, c); }
    Inside16(points, |pairs| - 1, c);
    Interval16(points, |pairs| - 1);
  }

  /** When the search goes to the left of `mid`, `mid` is not 0, so the unsigned `idx - 1` does not wrap. */
  lemma NoUnderflow(pairs: seq<(int, int)>, c: int, lo: nat, hi: nat)
    requires Ordered(pairs) && lo <= hi < |pairs| && pairs[0].0 <= c < pairs[(lo + hi) / 2].0
    ensures (lo + hi) / 2 >= 1
  {
  }
}
