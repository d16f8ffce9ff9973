/** The memory of the fuzzy matcher: pieces cut from a slab that earlier calls have used, or fresh ones. */
module FuzzySlab {

  /** The 16-bit part of a slab with what earlier calls have left in it. */
  datatype Slab = NoSlab | Slab(i16: seq<int>)

  /** Where a piece lies: in the slab between two offsets, or in fresh memory full of zeros. */
  datatype Piece = InSlab(from: nat, to: nat) | Fresh(size: nat)

  /** `alloc16`: the piece, and the offset behind it; a piece that does not fit leaves the offset alone. */
  function Alloc16(slab: Slab, offset: nat, size: nat): (r: (Piece, nat))
    ensures offset <= r.1
  {
    if slab.Slab? && |slab.i16| > offset + size then (InSlab(offset, offset + size), offset + size) else (Fresh(size), offset)
  }

  /** The pieces of a row of allocations. */
  function Layout(slab: Slab, offset: nat, sizes: seq<nat>): (ps: seq<Piece>)
    ensures |ps| == |sizes|
    decreases |sizes|
  {
    if sizes == [] then []
    else
      var (p, next) := Alloc16(slab, offset, sizes[0]);
      [p] + Layout(slab, next, sizes[1..])
  }

  predicate Inside(slab: Slab, offset: nat, size: nat, p: Piece) {
    match p
    case InSlab(from, to) => slab.Slab? && offset <= from <= to == from + size && to < |slab.i16|
    case Fresh(n) => n == size
  }

  /** The pieces lie in the slab behind the offset, have the sizes asked for, and do not overlap. */
  lemma {:induction false} LayoutApart(slab: Slab, offset: nat, sizes: seq<nat>, i: nat, j: nat)
    requires i < j < |sizes|
    ensures var ps := Layout(slab, offset, sizes);
            && Inside(slab, offset, sizes[i], ps[i]) && Inside(slab, offset, sizes[j], ps[j])
            && (ps[i].InSlab? && ps[j].InSlab? ==> ps[i].to <= ps[j].from)
    decreases |sizes|
  {
    var (p, next) := Alloc16(slab, offset, sizes[0]);
    LayoutInside(slab, next, sizes[1..], j - 1);
    if i > 0 { LayoutApart(slab, next, sizes[1..], i - 1, j - 1); }
  }

  lemma {:induction false} LayoutInside(slab: Slab, offset: nat, sizes: seq<nat>, i: nat)
    requires i < |sizes|
    ensures Inside(slab, offset, sizes[i], Layout(slab, offset, sizes)[i])
    decreases |sizes|
  {
    if i > 0 {
      LayoutInside(slab, Alloc16(slab, offset, sizes[0]).1, sizes[1..], i - 1);
    }
  }

  /** What a piece holds when it is handed out. */
  function Contents(slab: Slab, p: Piece, size: nat): (c: seq<int>)
    requires Inside(slab, 0, size, p)
    ensures |c| == size
  {
    match p
    case InSlab(from, to) => slab.i16[from..to]
    case Fresh(n) => seq(n, _ => 0)
  }

  /** The pieces of `fzf_fuzzy_match_v2` in order: the first row twice, the bonuses, the scores and the runs. */
  function GridSizes(n: nat, cells: nat): (sizes: seq<nat>)
    ensures |sizes| == 5 && sizes[4] == cells
  {
    [n, n, n, cells, cells]
  }

  function RunPiece(slab: Slab, n: nat, cells: nat): Piece { Layout(slab, 0, GridSizes(n, cells))[4] }

  /** What the memory of the runs holds before a call. */
  function FormerRuns(slab: Slab, n: nat, cells: nat): (c: seq<int>)
    ensures |c| == cells
  {
    LayoutInside(slab, 0, GridSizes(n, cells), 4);
    Contents(slab, RunPiece(slab, n, cells), cells)
  }

  predicate SameSize(s1: Slab, s2: Slab) { s1.Slab? == s2.Slab? && (s1.Slab? ==> |s1.i16| == |s2.i16|) }

  /** The places of the pieces depend on the size of the slab only. */
  lemma {:induction false} LayoutSame(s1: Slab, s2: Slab, offset: nat, sizes: seq<nat>)
    requires SameSize(s1, s2)
    ensures Layout(s1, offset, sizes) == Layout(s2, offset, sizes)
    decreases |sizes|
  {
    if sizes != [] { LayoutSame(s1, s2, Alloc16(s1, offset, sizes[0]).1, sizes[1..]); }
  }
}
