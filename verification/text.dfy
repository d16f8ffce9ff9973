/** The subject string of a match and the moves of the character pointer over it. */
module Text {

  type code = c: nat | c < 0x11_0000

  type unit = u: nat | u < 0x1_0000

  /** `pairs` is set in UTF-16 mode, where a surrogate pair is one character. */
  datatype Subject = Subject(units: seq<unit>, pairs: bool)

  predicate IsHigh(u: unit) { 0xd800 <= u < 0xdc00 }

  predicate IsLow(u: unit) { 0xdc00 <= u < 0xe000 }

  function Combine(high: unit, low: unit): code {
    var h: int, l: int := high % 0x400, low % 0x400;
    h * 0x400 + l + 0x1_0000
  }

  /** GET_CHAR with `end` as the end of the buffer: the character at `pos` and the position after it. */
  function GetChar(x: Subject, pos: nat, end: nat): (r: (code, nat))
    requires pos < end <= |x.units|
    ensures pos < r.1 <= end
  {
    var c := x.units[pos];
    if IsHigh(c) && x.pairs && pos + 1 < end && IsLow(x.units[pos + 1])
    then (Combine(c, x.units[pos + 1]), pos + 2)
    else (c, pos + 1)
  }

  /** GET_PREV_CHAR with `start` as the start of the buffer. */
  function GetPrevChar(x: Subject, pos: nat, start: nat): (r: (code, nat))
    requires start < pos <= |x.units|
    ensures start <= r.1 < pos
  {
    var c := x.units[pos - 1];
    if IsLow(c) && x.pairs && pos - 1 > start && IsHigh(x.units[pos - 2])
    then (Combine(x.units[pos - 2], c), pos - 2)
    else (c, pos - 1)
  }

  /** PREV_CHAR. */
  function PrevChar(x: Subject, pos: nat): (p: nat)
    requires 0 < pos <= |x.units|
    ensures p < pos
  {
    if x.pairs && IsLow(x.units[pos - 1]) && pos - 1 > 0 && IsHigh(x.units[pos - 2]) then pos - 2 else pos - 1
  }

  /** `pos` does not lie between the two halves of a surrogate pair. */
  predicate Boundary(x: Subject, pos: nat) {
    pos <= |x.units| && !(x.pairs && 0 < pos < |x.units| && IsLow(x.units[pos]) && IsHigh(x.units[pos - 1]))
  }

  /** One step back undoes one step forward exactly from a character boundary. */
  lemma PrevUndoesGet(x: Subject, pos: nat)
    requires pos < |x.units|
    ensures Boundary(x, GetChar(x, pos, |x.units|).1)
    ensures PrevChar(x, GetChar(x, pos, |x.units|).1) == pos <==> Boundary(x, pos)
  {
  }

  /** Stepping back and reading gives the character before `pos`, and leads back to `pos`. */
  lemma GetUndoesPrev(x: Subject, pos: nat)
    requires 0 < pos <= |x.units|
    ensures Boundary(x, PrevChar(x, pos))
    ensures PrevChar(x, pos) == GetPrevChar(x, pos, 0).1
    ensures Boundary(x, pos) ==> GetChar(x, PrevChar(x, pos), |x.units|) == (GetPrevChar(x, pos, 0).0, pos)
  {
  }

  /** `k` steps forward; none when the subject ends first. */
  function Forward(x: Subject, pos: nat, k: nat): (r: int)
    requires pos <= |x.units|
    ensures -1 <= r <= |x.units| && (r >= 0 ==> pos + k <= r)
    decreases k
  {
    if k == 0 then pos
    else if pos == |x.units| then -1
    else Forward(x, GetChar(x, pos, |x.units|).1, k - 1)
  }

  /** `k` steps back, as the greedy-quantifier backtracking does them. */
  function Back(x: Subject, pos: nat, k: nat): (r: int)
    requires pos <= |x.units|
    ensures -1 <= r <= |x.units|
    decreases k
  {
    if k == 0 then pos
    else if pos == 0 then -1
    else Back(x, PrevChar(x, pos), k - 1)
  }

  lemma {:induction false} ForwardSplit(x: Subject, pos: nat, j: nat, k: nat)
    requires pos <= |x.units|
    ensures Forward(x, pos, j) >= 0 ==> Forward(x, pos, j + k) == Forward(x, Forward(x, pos, j), k)
    decreases j
  {
    if j > 0 && pos < |x.units| {
      ForwardSplit(x, GetChar(x, pos, |x.units|).1, j - 1, k);
    }
  }

  lemma {:induction false} ForwardBoundary(x: Subject, pos: nat, k: nat)
    requires pos <= |x.units| && Forward(x, pos, k) >= 0
    requires k > 0 || Boundary(x, pos)
    ensures Boundary(x, Forward(x, pos, k))
    decreases k
  {
    if k > 0 {
      PrevUndoesGet(x, pos);
      ForwardBoundary(x, GetChar(x, pos, |x.units|).1, k - 1);
    }
  }

  /** `k` steps back undo `k >= 1` steps forward if and only if the run of steps began on a boundary. */
  lemma {:induction false} BackUndoesForward(x: Subject, pos: nat, k: nat)
    requires pos <= |x.units| && k > 0 && Forward(x, pos, k) >= 0
    ensures Back(x, Forward(x, pos, k), k) == pos <==> Boundary(x, pos)
    decreases k
  {
    var next := GetChar(x, pos, |x.units|).1;
    PrevUndoesGet(x, pos);
    if k > 1 {
      BackUndoesForward(x, next, k - 1);
      BackSplit(x, Forward(x, pos, k), k - 1, 1);
    }
  }

  lemma {:induction false} BackSplit(x: Subject, pos: nat, j: nat, k: nat)
    requires pos <= |x.units|
    ensures Back(x, pos, j) >= 0 ==> Back(x, pos, j + k) == Back(x, Back(x, pos, j), k)
    decreases j
  {
    if j > 0 && pos > 0 {
      BackSplit(x, PrevChar(x, pos), j - 1, k);
    }
  }

  /** Going back as many characters as were gone forward never runs over the start, wherever the run began. */
  lemma BackDefined(x: Subject, pos: nat, k: nat)
    requires pos <= |x.units| && Forward(x, pos, k) >= 0
    ensures Back(x, Forward(x, pos, k), k) >= 0
  {
    if k > 0 {
      var next := GetChar(x, pos, |x.units|).1;
      var end := Forward(x, pos, k);
      PrevUndoesGet(x, pos);
      if k > 1 { BackUndoesForward(x, next, k - 1); }
      assert Back(x, end, k - 1) == next;
      BackSplit(x, end, k - 1, 1);
      assert Back(x, next, 1) == PrevChar(x, next);
    }
  }
}
