/** Binned histograms as the analysis code uses them through ROOT: N-dimensional
    histograms whose axes carry an active range, projected onto one axis, and the
    one-dimensional results rebinned, scaled by bin width, added and divided.
    Every operation is a pure function: setting a range yields a new view and
    never touches the filled cells, so a restriction is undone by setting the
    old range again. */
module Histograms {
  import opened Vectors

  /** A binned axis given by its ascending edges.  As in ROOT the regular bins are
      numbered 1..NBins, bin b spanning [edges[b-1], edges[b]). */
  datatype Axis = Axis(edges: seq<real>)

  predicate ValidAxis(ax: Axis)
  {
    && |ax.edges| >= 2
    && forall i, j :: 0 <= i < j < |ax.edges| ==> ax.edges[i] < ax.edges[j]
  }

  function NBins(ax: Axis): nat
  {
    if |ax.edges| == 0 then 0 else |ax.edges| - 1
  }

  /** Bin widths, indexed from 0 for bin 1. */
  function Widths(ax: Axis): (w: seq<real>)
    requires ValidAxis(ax)
    ensures |w| == NBins(ax)
    ensures AllPositive(w)
  {
    seq(NBins(ax), j requires 0 <= j < NBins(ax) => ax.edges[j + 1] - ax.edges[j])
  }

  /** The active range of one axis, in the three forms the analysis code sets:
      none (the whole axis), SetRange(first, last) by bin number, and
      SetRangeUser(lo, hi) in axis coordinates. */
  datatype Range = Full | Bins(first: int, last: int) | Coords(lo: real, hi: real)

  /** Whether regular bin b of the axis lies inside the range.  A coordinate range
      keeps every bin that overlaps the open interval (lo, hi): a bin whose upper
      edge is lo, or whose lower edge is hi, is left out. */
  predicate InRange(ax: Axis, r: Range, b: int)
  {
    && 1 <= b <= NBins(ax)
    && match r
       case Full => true
       case Bins(first, last) => first <= b <= last
       case Coords(lo, hi) => ax.edges[b] > lo && ax.edges[b - 1] < hi
  }

  /** One filled bin of a sparse N-dimensional histogram: its bin number on every
      axis and its content. */
  datatype Cell = Cell(bin: seq<int>, count: real)

  /** An N-dimensional histogram (THnSparse, TH3 or TH2): its axes, the active
      range of every axis, and its filled cells. */
  datatype HistN = HistN(axes: seq<Axis>, ranges: seq<Range>, cells: seq<Cell>)

  predicate Fits(axes: seq<Axis>, c: Cell)
  {
    && |c.bin| == |axes|
    && forall a :: 0 <= a < |axes| ==> 1 <= c.bin[a] <= NBins(axes[a])
  }

  predicate WellFormed(h: HistN)
  {
    && |h.ranges| == |h.axes|
    && (forall a :: 0 <= a < |h.axes| ==> ValidAxis(h.axes[a]))
    && (forall c :: c in h.cells ==> Fits(h.axes, c))
  }

  predicate NonNegative(h: HistN)
  {
    forall c :: c in h.cells ==> c.count >= 0.0
  }

  /** A cell counts towards integrals and projections when it lies inside the
      active range of every axis. */
  predicate Selected(h: HistN, c: Cell)
  {
    forall a :: 0 <= a < |h.axes| ==> InRangeOn(h, c, a)
  }

  /** The cell's bin on axis a lies in that axis's active range. */
  predicate InRangeOn(h: HistN, c: Cell, a: int)
  {
    0 <= a < |h.axes| && a < |h.ranges| && a < |c.bin| && InRange(h.axes[a], h.ranges[a], c.bin[a])
  }

  /** The same histogram with the active range of axis a replaced. */
  function SetRange(h: HistN, a: nat, r: Range): (g: HistN)
    requires a < |h.ranges|
    ensures g.axes == h.axes && g.cells == h.cells && |g.ranges| == |h.ranges|
  {
    h.(ranges := h.ranges[a := r])
  }

  function Weight(h: HistN, c: Cell): real
  {
    if Selected(h, c) then c.count else 0.0
  }

  function SumOver(h: HistN, cs: seq<Cell>): real
  {
    if |cs| == 0 then 0.0 else Weight(h, cs[0]) + SumOver(h, cs[1..])
  }

  /** Total content of the cells inside every active range. */
  function Integral(h: HistN): real
  {
    SumOver(h, h.cells)
  }

  /** What one cell adds to the projection onto axis a. */
  function Deposit(h: HistN, a: nat, c: Cell): (d: seq<real>)
    requires a < |h.axes|
    ensures |d| == NBins(h.axes[a])
  {
    seq(NBins(h.axes[a]), j => if Selected(h, c) && a < |c.bin| && c.bin[a] == j + 1 then c.count else 0.0)
  }

  function ProjectCells(h: HistN, a: nat, cs: seq<Cell>): (p: seq<real>)
    requires a < |h.axes|
    ensures |p| == NBins(h.axes[a])
  {
    if |cs| == 0 then Zeros(NBins(h.axes[a]))
    else Plus(Deposit(h, a, cs[0]), ProjectCells(h, a, cs[1..]))
  }

  /** A one-dimensional histogram: bin contents and bin widths, indexed from 0. */
  datatype H1 = H1(content: seq<real>, width: seq<real>)

  predicate ValidH1(g: H1)
  {
    |g.content| == |g.width| && AllPositive(g.width)
  }

  /** How many of the n consecutive bins b, b + 1, ... of the axis lie inside the range. */
  function InRangeCount(ax: Axis, r: Range, b: int, n: nat): nat
    decreases n
  {
    if n == 0 then 0 else (if InRange(ax, r, b) then 1 else 0) + InRangeCount(ax, r, b + 1, n - 1)
  }

  /** The entries of x that stand for bins b, b + 1, ... of the axis, keeping those
      whose bin lies inside the range, in order. */
  function Trim(x: seq<real>, ax: Axis, r: Range, b: int): (y: seq<real>)
    ensures |y| == InRangeCount(ax, r, b, |x|)
    decreases |x|
  {
    if |x| == 0 then []
    else (if InRange(ax, r, b) then [x[0]] else []) + Trim(x[1..], ax, r, b + 1)
  }

  /** Widths of the bins of axis a inside that axis's active range: the binning
      of a projection onto axis a. */
  function ProjectedWidths(h: HistN, a: nat): (w: seq<real>)
    requires WellFormed(h) && a < |h.axes|
    ensures AllPositive(w)
    ensures |w| == InRangeCount(h.axes[a], h.ranges[a], 1, NBins(h.axes[a]))
  {
    TrimKeepsSign(Widths(h.axes[a]), h.axes[a], h.ranges[a], 1);
    Trim(Widths(h.axes[a]), h.axes[a], h.ranges[a], 1)
  }

  /** Projection onto axis a, honouring the active range of every axis.  As ROOT's
      Projection and Project3D do without the "o" option, the result keeps only
      the bins of axis a inside that axis's own range, so its first bin is the
      first bin of the range; every selected cell lands in one of them. */
  function Project(h: HistN, a: nat): (g: H1)
    requires WellFormed(h) && a < |h.axes|
    ensures ValidH1(g)
    ensures g.width == ProjectedWidths(h, a)
    ensures Total(g.content) == Integral(h)
  {
    var p := ProjectCells(h, a, h.cells);
    ProjectCellsTotal(h, a, h.cells);
    ProjectCellsOutside(h, a, h.cells);
    TrimTotal(p, h.axes[a], h.ranges[a], 1);
    H1(Trim(p, h.axes[a], h.ranges[a], 1), ProjectedWidths(h, a))
  }

  /** Rebin(f): merge consecutive groups of f bins from the first bin on; a
      trailing partial group is not kept. */
  function Rebin(g: H1, f: nat): (r: H1)
    requires ValidH1(g) && f >= 1
    ensures ValidH1(r)
    ensures |r.content| == |g.content| / f
    ensures r.width == GroupSums(g.width, f)
    ensures |g.content| % f == 0 ==> Total(r.content) == Total(g.content)
    ensures AllNonNegative(g.content) ==> AllNonNegative(r.content) && Total(r.content) <= Total(g.content)
  {
    GroupSumsLength(g.content, f);
    GroupSumsLength(g.width, f);
    GroupSumsPositive(g.width, f);
    GroupSumsKeepsCount(g.content, f);
    H1(GroupSums(g.content, f), GroupSums(g.width, f))
  }

  /** What grouping keeps of the counts: all of them when the groups come out
      even, and never more than the input over non-negative entries. */
  lemma GroupSumsKeepsCount(x: seq<real>, f: nat)
    requires f >= 1
    ensures |x| % f == 0 ==> Total(GroupSums(x, f)) == Total(x)
    ensures AllNonNegative(x) ==> AllNonNegative(GroupSums(x, f)) && Total(GroupSums(x, f)) <= Total(x)
  {
    if |x| % f == 0 {
      GroupSumsTotal(x, f);
    }
    if AllNonNegative(x) {
      GroupSumsNonNegative(x, f);
      GroupSumsTotalAtMost(x, f);
    }
  }

  /** Scale(c, "width"): multiply by c and divide every bin by its width, so that
      content times width gives back c times the count. */
  function ScaleWidth(g: H1, c: real): (r: H1)
    requires ValidH1(g)
    ensures ValidH1(r) && r.width == g.width
    ensures forall j :: 0 <= j < |r.content| ==> r.content[j] * g.width[j] == c * g.content[j]
  {
    H1(seq(|g.content|, j requires 0 <= j < |g.content| => g.content[j] * c / g.width[j]), g.width)
  }

  /** Add: bin-wise sum, keeping the binning of the first operand. */
  function Add(x: H1, y: H1): (r: H1)
    requires ValidH1(x) && |y.content| == |x.content|
    ensures ValidH1(r) && r.width == x.width
    ensures forall j :: 0 <= j < |r.content| ==> r.content[j] == x.content[j] + y.content[j]
  {
    H1(Plus(x.content, y.content), x.width)
  }

  /** Divide: bin-wise ratio.  A bin whose divisor is zero is set to zero, which is
      the convention of ROOT's TH1::Divide; it is a modelling choice here. */
  function Divide(x: H1, y: H1): (r: H1)
    requires ValidH1(x) && |y.content| == |x.content|
    ensures ValidH1(r) && r.width == x.width
    ensures forall j :: 0 <= j < |r.content| && y.content[j] == 0.0 ==> r.content[j] == 0.0
    ensures forall j :: 0 <= j < |r.content| && y.content[j] != 0.0 ==> r.content[j] * y.content[j] == x.content[j]
  {
    H1(seq(|x.content|, j requires 0 <= j < |x.content| =>
         if y.content[j] == 0.0 then 0.0 else x.content[j] / y.content[j]), x.width)
  }

  /** Content times width, summed: the count-scale integral of a density histogram. */
  function Area(g: H1): real
    requires |g.width| == |g.content|
  {
    Total(seq(|g.content|, j requires 0 <= j < |g.content| => g.content[j] * g.width[j]))
  }

  // ---------------------------------------------------------------------------
  // Lemmas

  /** One cell lands in exactly one bin of the projection, or in none when it is masked. */
  lemma DepositTotal(h: HistN, a: nat, c: Cell)
    requires a < |h.axes| && Fits(h.axes, c)
    ensures Total(Deposit(h, a, c)) == Weight(h, c)
  {
    var d := Deposit(h, a, c);
    if Selected(h, c) {
      TotalOfSingle(d, c.bin[a] - 1);
    } else {
      TotalOfZeros(d);
    }
  }

  lemma {:induction false} ProjectCellsTotal(h: HistN, a: nat, cs: seq<Cell>)
    requires a < |h.axes|
    requires forall c :: c in cs ==> Fits(h.axes, c)
    ensures Total(ProjectCells(h, a, cs)) == SumOver(h, cs)
    decreases |cs|
  {
    if |cs| == 0 {
      TotalOfZeros(Zeros(NBins(h.axes[a])));
    } else {
      DepositTotal(h, a, cs[0]);
      ProjectCellsTotal(h, a, cs[1..]);
      TotalPlus(Deposit(h, a, cs[0]), ProjectCells(h, a, cs[1..]));
    }
  }

  lemma {:induction false} ProjectCellsNonNegative(h: HistN, a: nat, cs: seq<Cell>)
    requires a < |h.axes|
    requires forall c :: c in cs ==> c.count >= 0.0
    ensures AllNonNegative(ProjectCells(h, a, cs))
    decreases |cs|
  {
    if |cs| > 0 {
      ProjectCellsNonNegative(h, a, cs[1..]);
    }
  }

  lemma ProjectNonNegative(h: HistN, a: nat)
    requires WellFormed(h) && NonNegative(h) && a < |h.axes|
    ensures AllNonNegative(Project(h, a).content)
  {
    ProjectCellsNonNegative(h, a, h.cells);
    TrimKeepsSign(ProjectCells(h, a, h.cells), h.axes[a], h.ranges[a], 1);
  }

  /** A projection has nothing in the bins of the target axis outside its range:
      a cell deposits only when it is selected, so inside every range. */
  lemma {:induction false} ProjectCellsOutside(h: HistN, a: nat, cs: seq<Cell>)
    requires a < |h.axes| && a < |h.ranges|
    ensures forall j :: 0 <= j < NBins(h.axes[a]) && !InRange(h.axes[a], h.ranges[a], j + 1) ==>
              ProjectCells(h, a, cs)[j] == 0.0
    decreases |cs|
  {
    if |cs| > 0 {
      ProjectCellsOutside(h, a, cs[1..]);
      var c := cs[0];
      if Selected(h, c) {
        assert InRangeOn(h, c, a);
      }
    }
  }

  /** Trimming drops only zeros, so it keeps the total. */
  lemma {:induction false} TrimTotal(x: seq<real>, ax: Axis, r: Range, b: int)
    requires forall j :: 0 <= j < |x| && !InRange(ax, r, b + j) ==> x[j] == 0.0
    ensures Total(Trim(x, ax, r, b)) == Total(x)
    decreases |x|
  {
    if |x| > 0 {
      assert forall j :: 0 <= j < |x| - 1 && !InRange(ax, r, b + 1 + j) ==> x[1..][j] == x[j + 1] == 0.0;
      TrimTotal(x[1..], ax, r, b + 1);
      var head := if InRange(ax, r, b) then [x[0]] else [];
      TotalAppend(head, Trim(x[1..], ax, r, b + 1));
    }
  }

  /** Every entry kept by a trim is an entry of the input, so signs carry over. */
  lemma {:induction false} TrimKeepsSign(x: seq<real>, ax: Axis, r: Range, b: int)
    ensures AllPositive(x) ==> AllPositive(Trim(x, ax, r, b))
    ensures AllNonNegative(x) ==> AllNonNegative(Trim(x, ax, r, b))
    decreases |x|
  {
    if |x| > 0 {
      TrimKeepsSign(x[1..], ax, r, b + 1);
    }
  }

  /** When the bins inside the range are the n bins from offset k on, a trim is
      the slice of those n entries. */
  lemma {:induction false} TrimFromFirst(x: seq<real>, ax: Axis, r: Range, b: int, k: nat, n: nat)
    requires k + n <= |x|
    requires forall c :: b <= c < b + |x| ==> (InRange(ax, r, c) <==> b + k <= c < b + k + n)
    ensures Trim(x, ax, r, b) == x[k..k + n]
    decreases |x|, 1
  {
    if |x| > 0 {
      if k > 0 || n == 0 {
        TrimFromFirstSkip(x, ax, r, b, k, n);
      } else {
        TrimFromFirstKeep(x, ax, r, b, n);
      }
    }
  }

  /** The first bin lies outside the range (before it, or the range is empty). */
  lemma {:induction false} TrimFromFirstSkip(x: seq<real>, ax: Axis, r: Range, b: int, k: nat, n: nat)
    requires 0 < |x| && k + n <= |x| && (k > 0 || n == 0)
    requires forall c :: b <= c < b + |x| ==> (InRange(ax, r, c) <==> b + k <= c < b + k + n)
    ensures Trim(x, ax, r, b) == x[k..k + n]
    decreases |x|, 0
  {
    assert !InRange(ax, r, b);
    var k' := if k > 0 then k - 1 else 0;
    TrimFromFirst(x[1..], ax, r, b + 1, k', n);
    assert x[1..][k'..k' + n] == x[k..k + n];
  }

  /** The first bin is the first bin of a non-empty range. */
  lemma {:induction false} TrimFromFirstKeep(x: seq<real>, ax: Axis, r: Range, b: int, n: nat)
    requires 0 < n <= |x|
    requires forall c :: b <= c < b + |x| ==> (InRange(ax, r, c) <==> b <= c < b + n)
    ensures Trim(x, ax, r, b) == x[0..n]
    decreases |x|, 0
  {
    assert InRange(ax, r, b);
    TrimFromFirst(x[1..], ax, r, b + 1, 0, n - 1);
    assert [x[0]] + x[1..][0..n - 1] == x[0..n];
  }

  /** A projection starts at the first bin of the target axis's range: when the
      range keeps the n bins k + 1 .. k + n, the projection holds exactly those
      bins of the untrimmed projection, with their widths. */
  lemma ProjectStartsAtRange(h: HistN, a: nat, k: nat, n: nat)
    requires WellFormed(h) && a < |h.axes| && k + n <= NBins(h.axes[a])
    requires forall b :: 1 <= b <= NBins(h.axes[a]) ==> (InRange(h.axes[a], h.ranges[a], b) <==> k < b <= k + n)
    ensures Project(h, a).content == ProjectCells(h, a, h.cells)[k..k + n]
    ensures Project(h, a).width == Widths(h.axes[a])[k..k + n]
  {
    TrimFromFirst(ProjectCells(h, a, h.cells), h.axes[a], h.ranges[a], 1, k, n);
    TrimFromFirst(Widths(h.axes[a]), h.axes[a], h.ranges[a], 1, k, n);
  }

  /** The first bin from b on whose upper edge lies above lo, or NBins + 1 when
      there is none. */
  function FirstAbove(ax: Axis, lo: real, b: int): (c: int)
    requires ValidAxis(ax) && 1 <= b <= NBins(ax) + 1
    ensures b <= c <= NBins(ax) + 1
    ensures forall d :: b <= d < c ==> ax.edges[d] <= lo
    ensures c <= NBins(ax) ==> ax.edges[c] > lo
    decreases NBins(ax) + 1 - b
  {
    if b > NBins(ax) || ax.edges[b] > lo then b else FirstAbove(ax, lo, b + 1)
  }

  /** The last bin up to b whose lower edge lies below hi, or 0 when there is none. */
  function LastBelow(ax: Axis, hi: real, b: int): (c: int)
    requires ValidAxis(ax) && 0 <= b <= NBins(ax)
    ensures 0 <= c <= b
    ensures forall d :: c <= d < b ==> ax.edges[d] >= hi
    ensures c >= 1 ==> ax.edges[c - 1] < hi
    decreases b
  {
    if b == 0 || ax.edges[b - 1] < hi then b else LastBelow(ax, hi, b - 1)
  }

  /** A coordinate range keeps one unbroken run of bins: from the first bin that
      reaches above lo to the last bin that starts below hi. */
  lemma CoordsRangeIsInterval(ax: Axis, lo: real, hi: real)
    requires ValidAxis(ax)
    ensures var first, last := FirstAbove(ax, lo, 1), LastBelow(ax, hi, NBins(ax));
            forall b :: 1 <= b <= NBins(ax) ==> (InRange(ax, Coords(lo, hi), b) <==> first <= b <= last)
  {
    var first, last := FirstAbove(ax, lo, 1), LastBelow(ax, hi, NBins(ax));
    forall b | 1 <= b <= NBins(ax)
      ensures InRange(ax, Coords(lo, hi), b) <==> first <= b <= last
    {
      if first <= b {
        assert first < b ==> ax.edges[first] < ax.edges[b];
        assert ax.edges[b] > lo;
      } else {
        assert ax.edges[b] <= lo;
      }
      if b <= last {
        assert b < last ==> ax.edges[b - 1] < ax.edges[last - 1];
        assert ax.edges[b - 1] < hi;
      } else {
        assert ax.edges[b - 1] >= hi;
      }
    }
  }

  /** The projection onto an axis cut in coordinates starts at the first bin
      reaching above the cut's lower end and stops at the last bin starting below
      its upper end; Rebin then groups bins from that first bin on. */
  lemma CoordsProjection(h: HistN, a: nat, lo: real, hi: real)
    requires WellFormed(h) && a < |h.axes| && h.ranges[a] == Coords(lo, hi)
    ensures var ax := h.axes[a];
            var first, last := FirstAbove(ax, lo, 1), LastBelow(ax, hi, NBins(ax));
            && (first <= last ==>
                  && Project(h, a).content == ProjectCells(h, a, h.cells)[first - 1..last]
                  && Project(h, a).width == Widths(ax)[first - 1..last])
            && (first > last ==> Project(h, a).content == [])
  {
    var ax := h.axes[a];
    var first, last := FirstAbove(ax, lo, 1), LastBelow(ax, hi, NBins(ax));
    CoordsRangeIsInterval(ax, lo, hi);
    if first <= last {
      ProjectStartsAtRange(h, a, first - 1, last - first + 1);
    } else {
      ProjectStartsAtRange(h, a, 0, 0);
    }
  }

  /** Trimming commutes with bin-wise addition. */
  lemma {:induction false} TrimPlus(x: seq<real>, y: seq<real>, ax: Axis, r: Range, b: int)
    requires |x| == |y|
    ensures Trim(Plus(x, y), ax, r, b) == Plus(Trim(x, ax, r, b), Trim(y, ax, r, b))
    decreases |x|
  {
    if |x| > 0 {
      assert Plus(x, y)[1..] == Plus(x[1..], y[1..]);
      TrimPlus(x[1..], y[1..], ax, r, b + 1);
    }
  }

  /** Projection over a concatenation of cells is the sum of the two projections. */
  lemma {:induction false} ProjectCellsAppend(h: HistN, a: nat, cs: seq<Cell>, ds: seq<Cell>)
    requires a < |h.axes|
    ensures ProjectCells(h, a, cs + ds) == Plus(ProjectCells(h, a, cs), ProjectCells(h, a, ds))
    decreases |cs|
  {
    if |cs| == 0 {
      assert cs + ds == ds;
    } else {
      assert (cs + ds)[1..] == cs[1..] + ds;
      ProjectCellsAppend(h, a, cs[1..], ds);
    }
  }

  /** Cells outside the active ranges contribute nothing to a projection. */
  lemma {:induction false} ProjectCellsUnselected(h: HistN, a: nat, cs: seq<Cell>)
    requires a < |h.axes|
    requires forall c :: c in cs ==> !Selected(h, c)
    ensures forall j :: 0 <= j < NBins(h.axes[a]) ==> ProjectCells(h, a, cs)[j] == 0.0
    decreases |cs|
  {
    if |cs| > 0 {
      ProjectCellsUnselected(h, a, cs[1..]);
    }
  }

  /** The selection of a cell after replacing the range of axis x: the other axes as
      before, and axis x by the new range. */
  predicate OthersSelected(h: HistN, x: nat, c: Cell)
  {
    forall a :: 0 <= a < |h.axes| && a != x ==> InRangeOn(h, c, a)
  }

  lemma SelectedAfterSetRange(h: HistN, x: nat, r: Range, c: Cell)
    requires |h.ranges| == |h.axes| && x < |h.axes| && Fits(h.axes, c)
    ensures Selected(SetRange(h, x, r), c) <==> OthersSelected(h, x, c) && InRange(h.axes[x], r, c.bin[x])
  {
    var g := SetRange(h, x, r);
    if OthersSelected(h, x, c) && InRange(h.axes[x], r, c.bin[x]) {
      forall a | 0 <= a < |g.axes|
        ensures InRangeOn(g, c, a)
      {
        if a != x {
          assert InRangeOn(h, c, a);
          assert g.ranges[a] == h.ranges[a];
        }
      }
    }
    if Selected(g, c) {
      forall a | 0 <= a < |h.axes| && a != x
        ensures InRangeOn(h, c, a)
      {
        assert InRangeOn(g, c, a);
        assert g.ranges[a] == h.ranges[a];
      }
      assert InRangeOn(g, c, x);
    }
  }

  /** Range r on axis x is the disjoint union of ranges r1 and r2, bin by bin. */
  predicate SplitsInto(ax: Axis, r: Range, r1: Range, r2: Range)
  {
    forall b :: 1 <= b <= NBins(ax) ==>
      && (InRange(ax, r, b) <==> InRange(ax, r1, b) || InRange(ax, r2, b))
      && !(InRange(ax, r1, b) && InRange(ax, r2, b))
  }

  /** One cell deposits into the whole range exactly what it deposits into
      the two parts together. */
  lemma DepositSplits(h: HistN, x: nat, r: Range, r1: Range, r2: Range, a: nat, c: Cell)
    requires |h.ranges| == |h.axes| && x < |h.axes| && a < |h.axes| && Fits(h.axes, c)
    requires SplitsInto(h.axes[x], r, r1, r2)
    ensures Deposit(SetRange(h, x, r), a, c)
         == Plus(Deposit(SetRange(h, x, r1), a, c), Deposit(SetRange(h, x, r2), a, c))
  {
    SelectedAfterSetRange(h, x, r, c);
    SelectedAfterSetRange(h, x, r1, c);
    SelectedAfterSetRange(h, x, r2, c);
  }

  /** Splitting the range of one axis into two disjoint parts splits every
      projection into the sum of the two part projections. */
  lemma {:induction false} ProjectionSplits(h: HistN, x: nat, r: Range, r1: Range, r2: Range, a: nat, cs: seq<Cell>)
    requires |h.ranges| == |h.axes| && x < |h.axes| && a < |h.axes|
    requires forall c :: c in cs ==> Fits(h.axes, c)
    requires SplitsInto(h.axes[x], r, r1, r2)
    ensures ProjectCells(SetRange(h, x, r), a, cs)
         == Plus(ProjectCells(SetRange(h, x, r1), a, cs), ProjectCells(SetRange(h, x, r2), a, cs))
    decreases |cs|
  {
    var g, g1, g2 := SetRange(h, x, r), SetRange(h, x, r1), SetRange(h, x, r2);
    if |cs| > 0 {
      var c := cs[0];
      DepositSplits(h, x, r, r1, r2, a, c);
      ProjectionSplits(h, x, r, r1, r2, a, cs[1..]);
      PlusInterchange(Deposit(g1, a, c), Deposit(g2, a, c), ProjectCells(g1, a, cs[1..]), ProjectCells(g2, a, cs[1..]));
    }
  }

  /** Every range of h1 keeps only bins that the matching range of h2 keeps. */
  predicate RangesWithin(h1: HistN, h2: HistN)
  {
    && h1.axes == h2.axes
    && |h1.ranges| == |h2.ranges| == |h1.axes|
    && forall a, b :: 0 <= a < |h1.axes| && 1 <= b <= NBins(h1.axes[a]) && InRange(h1.axes[a], h1.ranges[a], b) ==> InRange(h2.axes[a], h2.ranges[a], b)
  }

  /** Over non-negative contents, narrowing ranges can only lower an integral. */
  lemma {:induction false} SumOverMonotone(h1: HistN, h2: HistN, cs: seq<Cell>)
    requires RangesWithin(h1, h2)
    requires forall c :: c in cs ==> c.count >= 0.0
    ensures SumOver(h1, cs) <= SumOver(h2, cs)
    decreases |cs|
  {
    if |cs| > 0 {
      var c := cs[0];
      if Selected(h1, c) {
        forall a | 0 <= a < |h2.axes|
          ensures InRangeOn(h2, c, a)
        {
          assert InRangeOn(h1, c, a);
        }
      }
      SumOverMonotone(h1, h2, cs[1..]);
    }
  }

  /** Rebinning commutes with addition of identically binned histograms. */
  lemma RebinAdd(x: H1, y: H1, f: nat)
    requires ValidH1(x) && ValidH1(y) && x.width == y.width && f >= 1
    ensures Rebin(Add(x, y), f) == Add(Rebin(x, f), Rebin(y, f))
  {
    GroupSumsPlus(x.content, y.content, f);
  }

  /** Width scaling commutes with addition. */
  lemma ScaleWidthAdd(x: H1, y: H1, c: real)
    requires ValidH1(x) && ValidH1(y) && x.width == y.width
    ensures ScaleWidth(Add(x, y), c) == Add(ScaleWidth(x, c), ScaleWidth(y, c))
  {
    var l, r := ScaleWidth(Add(x, y), c), Add(ScaleWidth(x, c), ScaleWidth(y, c));
    forall j | 0 <= j < |l.content|
      ensures l.content[j] == r.content[j]
    {
      calc {
        l.content[j];
        (x.content[j] + y.content[j]) * c / x.width[j];
        x.content[j] * c / x.width[j] + y.content[j] * c / x.width[j];
      }
    }
  }

  lemma {:induction false} TotalScaled(x: seq<real>, y: seq<real>, c: real)
    requires |y| == |x|
    requires forall j :: 0 <= j < |x| ==> y[j] == c * x[j]
    ensures Total(y) == c * Total(x)
    decreases |x|
  {
    if |x| > 0 {
      TotalScaled(x[1..], y[1..], c);
    }
  }

  /** The area of a width-scaled histogram is the scale factor times its total count. */
  lemma AreaOfScaleWidth(g: H1, c: real)
    requires ValidH1(g)
    ensures Area(ScaleWidth(g, c)) == c * Total(g.content)
  {
    var s := ScaleWidth(g, c);
    var prods := seq(|s.content|, j requires 0 <= j < |s.content| => s.content[j] * s.width[j]);
    TotalScaled(g.content, prods, c);
  }
}
