/** The HPL base application: the "calculator" arithmetic that picks a
    process grid and a problem size, the merging of the calculated values
    and comments into the HPL settings, and the lines of HPL.dat. */
module Hpl {
  import opened Wrappers
  import opened Text
  import opened Values
  import opened Expansion
  import opened Application

  /** The failures of the calculation, which the source raises. */
  datatype CalcError =
    | ExpansionError(error: ExpanderError)
    | ValueError(text: string)
    | NegativeSquareRoot
    | DivisionByZero

  // -----------------------------------------------------------------------
  // Integer square root

  function Square(n: int): int {
    n * n
  }

  lemma SquareMonotone(a: nat, b: nat)
    requires a <= b
    ensures Square(a) <= Square(b)
  {
    assert a * a <= a * b <= b * b;
  }

  /** The bounds of one recursive step: from the root s of n / 4, the root of
      n lies between 2s and 2s + 1. */
  lemma IsqrtStep(n: nat, s: nat)
    requires Square(s) <= n / 4 < Square(s + 1)
    ensures Square(2 * s) <= n < Square(2 * s + 2)
  {
    assert Square(2 * s) == 4 * Square(s);
    assert Square(2 * s + 2) == 4 * Square(s + 1);
  }

  /** _isqrt(n): floor of the square root; it raises for a negative n. */
  function Isqrt(n: int): (r: Option<nat>)
    ensures r.None? <==> n < 0
    ensures r.Some? ==> Square(r.value) <= n < Square(r.value + 1)
    ensures 0 <= n < 2 ==> r == Some(n)
    decreases if n < 0 then 0 else n
  {
    if n < 0 then None
    else if n < 2 then Some(n)
    else
      var s := Isqrt(n / 4).value;
      IsqrtStep(n, s);
      var lo := 2 * s;
      var hi := lo + 1;
      if hi * hi > n then Some(lo) else Some(hi)
  }

  /** The square-root bounds determine the root: any r with r*r <= n <
      (r+1)*(r+1) is what _isqrt returns. */
  lemma IsqrtUnique(n: nat, r: nat)
    requires Square(r) <= n < Square(r + 1)
    ensures Isqrt(n) == Some(r)
  {
    var s := Isqrt(n).value;
    if s < r {
      SquareMonotone(s + 1, r);
    } else if r < s {
      SquareMonotone(r + 1, s);
    }
  }

  // -----------------------------------------------------------------------
  // Process grid

  predicate Divides(d: int, n: int) {
    d != 0 && n % d == 0
  }

  /** A P x Q process grid. */
  datatype Grid = Grid(p: nat, q: nat)

  /** g uses all cores, P <= Q, and P is the largest divisor of the core
      count whose square does not exceed it. */
  ghost predicate IsBestGrid(total: int, g: Grid) {
    && g.p * g.q == total
    && 1 <= g.p <= g.q
    && Square(g.p) <= total
    && forall d: nat :: g.p < d && Square(d) <= total ==> !Divides(d, total)
  }

  /** The largest divisor of n that is at most d; 1 at worst. */
  function LargestDivisorUpTo(n: nat, d: nat): (r: nat)
    requires n >= 1 && d >= 1
    ensures 1 <= r <= d && Divides(r, n)
  {
    if n % d == 0 then d else LargestDivisorUpTo(n, d - 1)
  }

  /** No number between the divisor found and the start divides n. */
  lemma {:induction false} LargestDivisorUpToIsLargest(n: nat, d: nat)
    requires n >= 1 && d >= 1
    ensures forall k: nat :: LargestDivisorUpTo(n, d) < k <= d ==> !Divides(k, n)
  {
    if n % d != 0 {
      LargestDivisorUpToIsLargest(n, d - 1);
    }
  }

  /** The grid the calculator chooses for a core count: P counts down from
      the square root to the first divisor, and Q is the cofactor. A negative
      count makes the square root raise; a zero count makes
      `totalCores % 0` raise. */
  function BestGrid(total: int): (r: Result<Grid, CalcError>)
    ensures total < 0 <==> r == Failure(NegativeSquareRoot)
    ensures total == 0 <==> r == Failure(DivisionByZero)
    ensures r.Success? ==> 1 <= r.value.p <= r.value.q
  {
    if total < 0 then Failure(NegativeSquareRoot)
    else if total == 0 then Failure(DivisionByZero)
    else
      var s := Isqrt(total).value;
      var p := LargestDivisorUpTo(total, s);
      GridFactors(total, p, s);
      Success(Grid(p, total / p))
  }

  lemma MulMonotone(a: nat, x: int, y: int)
    requires x <= y
    ensures a * x <= a * y
  {
  }

  lemma DivExact(n: int, d: int)
    requires d > 0 && n % d == 0
    ensures d * (n / d) == n
  {
  }

  /** A divisor P at most the square root, and its cofactor Q: P * Q is the
      count, P * P does not exceed it, and P <= Q. */
  lemma GridFactors(total: nat, p: nat, s: nat)
    requires 1 <= p <= s && Square(s) <= total && Divides(p, total)
    ensures p * (total / p) == total && Square(p) <= total && p <= total / p
  {
    DivExact(total, p);
    SquareMonotone(p, s);
    var q := total / p;
    if q < p {
      MulMonotone(p, q, p - 1);
    }
  }

  /** A number whose square is below (s+1)^2 is at most s. */
  lemma BelowNextSquare(d: nat, s: nat)
    requires Square(d) < Square(s + 1)
    ensures d <= s
  {
    if d > s {
      SquareMonotone(s + 1, d);
    }
  }

  /** The chosen grid is the best one. */
  lemma BestGridIsBest(total: int)
    requires total > 0
    ensures BestGrid(total).Success? && IsBestGrid(total, BestGrid(total).value)
  {
    var s := Isqrt(total).value;
    var g := BestGrid(total).value;
    GridFactors(total, g.p, s);
    LargestDivisorUpToIsLargest(total, s);
    forall d: nat | g.p < d && Square(d) <= total
      ensures !Divides(d, total)
    {
      BelowNextSquare(d, s);
    }
  }

  /** Two best grids for the same count have the same P, hence the same Q. */
  lemma BestGridsAgree(total: int, g: Grid, h: Grid)
    requires IsBestGrid(total, g) && IsBestGrid(total, h)
    ensures g == h
  {
    assert Divides(g.p, total) by {
      MultipleDivides(g.q, g.p);
      assert g.q * g.p == total;
    }
    assert Divides(h.p, total) by {
      MultipleDivides(h.q, h.p);
      assert h.q * h.p == total;
    }
    assert g.p == h.p by {
      if h.p < g.p {
        assert false;
      } else if g.p < h.p {
        assert false;
      }
    }
    assert g.q == h.q by {
      MulDivCancel(g.p, g.q);
      MulDivCancel(h.p, h.q);
    }
  }

  /** There is only one best grid, so the countdown finds exactly it. */
  lemma BestGridUnique(total: int, g: Grid)
    requires IsBestGrid(total, g)
    ensures BestGrid(total) == Success(g)
  {
    assert total >= 1 by {
      MulMonotone(g.p, 1, g.q);
    }
    BestGridIsBest(total);
    BestGridsAgree(total, g, BestGrid(total).value);
  }

  /** The bestP countdown loop and bestQ = totalCores // bestP. */
  method ChooseGrid(totalCores: int) returns (r: Result<Grid, CalcError>)
    ensures r == BestGrid(totalCores)
  {
    var root := Isqrt(totalCores);
    if root.None? {
      return Failure(NegativeSquareRoot);
    }
    var bestP := root.value;
    if bestP == 0 {
      return Failure(DivisionByZero);
    }
    assert totalCores >= 1 by {
      assert Square(bestP) <= totalCores;
    }
    while totalCores % bestP > 0
      invariant 1 <= bestP <= root.value
      invariant totalCores >= 1
      invariant LargestDivisorUpTo(totalCores, bestP) == LargestDivisorUpTo(totalCores, root.value)
      decreases bestP
    {
      bestP := bestP - 1;
    }
    assert LargestDivisorUpTo(totalCores, bestP) == bestP;
    r := Success(Grid(bestP, totalCores / bestP));
  }

  // -----------------------------------------------------------------------
  // Least common multiple

  lemma MultipleDivides(k: int, q: int)
    requires q >= 1
    ensures Divides(q, k * q)
  {
  }

  lemma NextMultipleDivides(q: nat, m: nat)
    requires q >= 1 && Divides(q, m)
    ensures Divides(q, m + q)
  {
    DivExact(m, q);
    MultipleDivides(m / q + 1, q);
    assert (m / q + 1) * q == m + q;
  }

  /** Below P * Q, the next multiple of Q is still at most P * Q. */
  lemma NextMultipleBound(p: nat, q: nat, m: nat)
    requires q >= 1 && Divides(q, m) && m < p * q
    ensures m + q <= p * q
  {
    DivExact(m, q);
    var i := m / q;
    assert q * i < q * p;
    assert i < p;
    MulMonotone(q, i + 1, p);
  }

  /** Two multiples of Q less than Q apart are equal. */
  lemma NoMultipleBetween(q: nat, m: nat, x: nat)
    requires q >= 1 && Divides(q, m) && Divides(q, x) && m <= x < m + q
    ensures x == m
  {
    DivExact(m, q);
    DivExact(x, q);
    var a, b := x / q, m / q;
    assert q * a - q * b == q * (a - b);
    MulSmallIsZero(q, a - b);
  }

  /** A multiple of b between 0 and b is 0 times b. */
  lemma MulSmallIsZero(b: int, k: int)
    requires b > 0 && 0 <= b * k < b
    ensures k == 0
  {
    if k >= 1 {
      MulMonotone(b, 1, k);
    } else if k <= -1 {
      MulMonotone(b, k, -1);
    }
  }

  /** A multiple of Q up to P * Q that P does not divide is below P * Q,
      so the next multiple of Q is one too, and still at most P * Q. */
  lemma NextMultiple(p: nat, q: nat, m: nat)
    requires p >= 1 && q >= 1 && q <= m <= p * q && Divides(q, m) && m % p != 0
    ensures q <= m + q <= p * q && Divides(q, m + q)
  {
    MultipleDivides(q, p);
    NextMultipleBound(p, q, m);
    NextMultipleDivides(q, m);
  }

  /** The first of m, m + Q, m + 2Q, ... that P divides. */
  function LeastMultipleFrom(p: nat, q: nat, m: nat): (l: nat)
    requires p >= 1 && q >= 1 && q <= m <= p * q && Divides(q, m)
    ensures m <= l
    decreases p * q - m
  {
    if m % p == 0 then m
    else
      NextMultiple(p, q, m);
      LeastMultipleFrom(p, q, m + q)
  }

  /** lcm(P, Q) as the loop finds it, starting from Q. */
  function Lcm(p: nat, q: nat): (l: nat)
    requires p >= 1 && q >= 1
    ensures l >= q
  {
    MulMonotone(q, 1, p);
    MultipleDivides(1, q);
    LeastMultipleFrom(p, q, q)
  }

  lemma {:induction false} LeastMultipleFromIsLeast(p: nat, q: nat, m: nat)
    requires p >= 1 && q >= 1 && q <= m <= p * q && Divides(q, m)
    ensures var l := LeastMultipleFrom(p, q, m);
      && m <= l && Divides(p, l) && Divides(q, l)
      && forall x: nat :: m <= x < l && Divides(q, x) ==> !Divides(p, x)
    decreases p * q - m
  {
    if m % p != 0 {
      NextMultiple(p, q, m);
      LeastMultipleFromIsLeast(p, q, m + q);
      var l := LeastMultipleFrom(p, q, m);
      forall x: nat | m <= x < l && Divides(q, x)
        ensures !Divides(p, x)
      {
        if x < m + q {
          NoMultipleBetween(q, m, x);
        }
      }
    }
  }

  /** A positive multiple of Q is at least Q. */
  lemma PositiveMultiple(q: nat, x: nat)
    requires q >= 1 && x > 0 && Divides(q, x)
    ensures x >= q
  {
    DivExact(x, q);
    MulMonotone(q, 1, x / q);
  }

  /** lcmPQ is the least positive multiple of both P and Q. */
  lemma LcmIsLeastCommonMultiple(p: nat, q: nat)
    requires p >= 1 && q >= 1
    ensures Lcm(p, q) >= 1 && Divides(p, Lcm(p, q)) && Divides(q, Lcm(p, q))
    ensures forall m: nat :: 0 < m < Lcm(p, q) && Divides(q, m) ==> !Divides(p, m)
  {
    MulMonotone(q, 1, p);
    MultipleDivides(1, q);
    LeastMultipleFromIsLeast(p, q, q);
    forall m: nat | 0 < m < Lcm(p, q) && Divides(q, m)
      ensures !Divides(p, m)
    {
      PositiveMultiple(q, m);
    }
  }

  /** The lcmPQ loop: add Q until P divides the sum. */
  method LeastCommonMultiple(p: nat, q: nat) returns (lcm: nat)
    requires p >= 1 && q >= 1
    ensures lcm == Lcm(p, q)
  {
    lcm := q;
    MulMonotone(q, 1, p);
    MultipleDivides(1, q);
    MultipleDivides(q, p);
    while lcm % p > 0
      invariant q <= lcm <= p * q && Divides(q, lcm)
      invariant LeastMultipleFrom(p, q, lcm) == Lcm(p, q)
      decreases p * q - lcm
    {
      NextMultiple(p, q, lcm);
      lcm := lcm + q;
    }
  }

  // -----------------------------------------------------------------------
  // Problem size

  /** Python's floor division `//`, which rounds towards negative infinity. */
  function FloorDiv(a: int, b: int): int
    requires b != 0
  {
    if b > 0 then a / b else (-a) / (-b)
  }

  /** Python's `%`, whose result takes the sign of the divisor. */
  function FloorMod(a: int, b: int): int
    requires b != 0
  {
    a - b * FloorDiv(a, b)
  }

  /** The problem size aligned down to a multiple of blockSize * lcm; a zero
      block size makes `%` raise. */
  function AlignProblemSize(target: nat, blockSize: int, lcm: nat): (r: Result<int, CalcError>)
    requires lcm >= 1
    ensures r.Failure? <==> blockSize == 0
  {
    if blockSize == 0 then Failure(DivisionByZero)
    else
      var size := target - FloorMod(target, blockSize);
      var blocks := FloorDiv(size, blockSize);
      var alignedBlocks := blocks - FloorMod(blocks, lcm);
      Success(blockSize * alignedBlocks)
  }

  /** For a positive divisor, floor division and `%` are Dafny's. */
  lemma FloorOfPositive(a: int, b: int)
    requires b > 0
    ensures FloorDiv(a, b) == a / b && FloorMod(a, b) == a % b
  {
  }

  /** Rounding down to a multiple of b loses less than b. */
  lemma AlignDownBounds(x: nat, b: int)
    requires b > 0
    ensures x - x % b == b * (x / b) && 0 <= b * (x / b) <= x < b * (x / b) + b
  {
    MulMonotone(b, 0, x / b);
  }

  lemma MulDivCancel(b: int, k: int)
    requires b > 0
    ensures (b * k) / b == k
  {
    var r, m := (b * k) / b, (b * k) % b;
    assert b * k == b * r + m;
    assert b * (k - r) == m;
    MulSmallIsZero(b, k - r);
  }

  /** For a positive block size the computation rounds the target down to
      whole blocks and the block count down to a multiple of lcm. */
  lemma AlignedValue(target: nat, blockSize: int, lcm: nat)
    requires blockSize > 0 && lcm >= 1
    ensures AlignProblemSize(target, blockSize, lcm) == Success(blockSize * (lcm * ((target / blockSize) / lcm)))
  {
    var b := target / blockSize;
    FloorOfPositive(target, blockSize);
    AlignDownBounds(target, blockSize);
    var size := target - FloorMod(target, blockSize);
    assert size == blockSize * b;
    FloorOfPositive(size, blockSize);
    MulDivCancel(blockSize, b);
    FloorOfPositive(b, lcm);
  }

  /** b whole blocks of the target, c whole groups of lcm blocks: c groups
      fit in the target and one more group does not. */
  lemma AlignedBounds(target: nat, blockSize: int, lcm: nat, b: nat, c: nat)
    requires blockSize > 0 && lcm >= 1
    requires blockSize * b <= target < blockSize * b + blockSize
    requires lcm * c <= b < lcm * c + lcm
    ensures 0 <= blockSize * (lcm * c) <= target < blockSize * (lcm * c) + blockSize * lcm
  {
    MulMonotone(blockSize, lcm * c, b);
    MulMonotone(blockSize, 0, lcm * c);
    MulMonotone(blockSize, b + 1, lcm * c + lcm);
    assert blockSize * (lcm * c + lcm) == blockSize * (lcm * c) + blockSize * lcm;
  }

  /** c groups of lcm blocks are a multiple of blockSize * lcm. */
  lemma AlignedDivides(blockSize: int, lcm: nat, c: nat)
    requires blockSize > 0 && lcm >= 1
    ensures Divides(blockSize * lcm, blockSize * (lcm * c))
  {
    assert blockSize * (lcm * c) == c * (blockSize * lcm);
    MultipleDivides(c, blockSize * lcm);
  }

  /** For a positive block size, the problem size is the largest multiple of
      blockSize * lcm that does not exceed the target. */
  lemma ProblemSizeIsAligned(target: nat, blockSize: int, lcm: nat)
    requires blockSize > 0 && lcm >= 1
    ensures AlignProblemSize(target, blockSize, lcm).Success?
    ensures var n := AlignProblemSize(target, blockSize, lcm).value;
      0 <= n <= target && Divides(blockSize * lcm, n) && target < n + blockSize * lcm
  {
    var b := target / blockSize;
    var c := b / lcm;
    AlignedValue(target, blockSize, lcm);
    AlignDownBounds(target, blockSize);
    AlignDownBounds(b, lcm);
    AlignedBounds(target, blockSize, lcm, b, c);
    AlignedDivides(blockSize, lcm, c);
  }

  // -----------------------------------------------------------------------
  // Settings

  /** A setting's value: the expanded text, or a calculated number. */
  datatype SettingValue = Text(s: string) | Number(n: int)

  /** What `"{}".format(val)` prints. */
  function Format(v: SettingValue): string {
    match v
    case Text(s) => s
    case Number(n) => IntToString(n)
  }

  /** The value as define_variable stores it without padding. */
  function Raw(v: SettingValue): Value {
    match v
    case Text(s) => Str(s)
    case Number(n) => Int(n)
  }

  /** pad_value(val, desc): the value left-justified in 14 columns, then the
      description. */
  function PadValue(v: SettingValue, desc: string): (r: string)
    ensures |r| == (if |Format(v)| < 14 then 14 else |Format(v)|) + |desc|
    ensures StartsWith(r, Format(v)) && EndsWith(r, desc)
    ensures forall i :: |Format(v)| <= i < |r| - |desc| ==> r[i] == ' '
    ensures |Format(v)| <= 14 ==> r[14..] == desc
  {
    LeftJustify(Format(v), 14) + desc
  }

  /** A calculated override: a replacement value and a comment to append. */
  datatype Override = Override(value: Option<int>, comment: Option<string>)

  /** hpl_settings: each HPL.dat setting with its comment. */
  const HplSettings: seq<(string, string)> := [
    ("output_file", "output file name (if any)"),
    ("device_out", "(FORTRAN) device out (6=stdout,7=stderr,file)"),
    ("N-Ns", "Number of problem sizes (N)"),
    ("Ns", "Ns, Problem Sizes"),
    ("N-NBs", "Number of NBs"),
    ("NBs", "NBs, Block sizes"),
    ("PMAP", "PMAP process mapping (0=Row-,1=Column-major)"),
    ("N-Grids", "Number of Grids, process grids (P x Q)"),
    ("Ps", "Ps, Dimension 1 parallelization"),
    ("Qs", "Qs, Dimension 2 parallelization"),
    ("threshold", "threshold"),
    ("NPFACTs", "Number of PFACTs, panel fact"),
    ("PFACTs", "PFACT Values (0=left, 1=Crout, 2=Right)"),
    ("N-NBMINs", "Number of NBMINs, recursive stopping criteria"),
    ("NBMINs", "NBMINs (>= 1)"),
    ("N-NDIVs", "Number of NDIVs, panels in recursion"),
    ("NDIVs", "NDIVs"),
    ("N-RFACTs", "Number of RFACTS, recursive panel fact."),
    ("RFACTs", "RFACTs (0=left, 1=Crout, 2=Right)"),
    ("N-BCASTs", "Number of BCASTs, broadcast"),
    ("BCASTs", "BCASTs (0=1rg,1=1rM,2=2rg,3=2rM,4=Lng,5=LnM,6=MKL BPUSH,7=AMD Hybrid Panel)"),
    ("N-DEPTHs", "Number of DEPTHs, lookahead depth"),
    ("DEPTHs", "DEPTHs (>=0)"),
    ("SWAP", "SWAP (0=bin-exch,1=long,2=mix)"),
    ("swapping_threshold", "swapping_threshold"),
    ("L1", "L1 in (0=transposed,1=no-transposed) form"),
    ("U", "U  in (0=transposed,1=no-transposed) form"),
    ("Equilibration", "Equilibration (0=no,1=yes)"),
    ("mem_alignment", "memory alignment in double (> 0)")]

  /** The definition a setting receives: its expansion, or the calculated
      value when there is one; the comment, extended by " " and the
      calculated comment when there is one; padded unless the workload is an
      "mxp" one, which stores the value itself. */
  function SettingDefinition(e: Expander, overrides: map<string, Override>, setting: string, comment: string): Result<Value, CalcError> {
    match ExpandVarName(e, setting, true)
    case Failure(err) => Failure(ExpansionError(err))
    case Success(expanded) =>
      var value := if setting in overrides && overrides[setting].value.Some?
        then Number(overrides[setting].value.value) else Text(expanded);
      var padComment := if setting in overrides && overrides[setting].comment.Some?
        then comment + " " + overrides[setting].comment.value else comment;
      Success(if Contains(e.workloadName, "mxp") then Raw(value) else Str(PadValue(value, padComment)))
  }

  /** The variable store after an operation, and the error that ended it early, if any. */
  datatype Outcome = Outcome(variables: map<string, Value>, error: Option<CalcError>)

  /** The settings loop: each setting in turn is defined, until one fails. */
  function ApplySettings(vars: map<string, Value>, e: Expander, overrides: map<string, Override>,
                         settings: seq<(string, string)>): Outcome
    decreases |settings|
  {
    if settings == [] then Outcome(vars, None)
    else
      match SettingDefinition(e, overrides, settings[0].0, settings[0].1)
      case Failure(err) => Outcome(vars, Some(err))
      case Success(v) => ApplySettings(vars[settings[0].0 := v], e, overrides, settings[1..])
  }

  /** When the loop completes, a setting that no later setting redefines
      holds its definition. */
  lemma {:induction false} ApplySettingsDefines(vars: map<string, Value>, e: Expander,
      overrides: map<string, Override>, settings: seq<(string, string)>, i: nat)
    requires i < |settings|
    requires forall j :: i < j < |settings| ==> settings[j].0 != settings[i].0
    requires ApplySettings(vars, e, overrides, settings).error.None?
    ensures SettingDefinition(e, overrides, settings[i].0, settings[i].1).Success?
    ensures settings[i].0 in ApplySettings(vars, e, overrides, settings).variables
    ensures ApplySettings(vars, e, overrides, settings).variables[settings[i].0] ==
      SettingDefinition(e, overrides, settings[i].0, settings[i].1).value
    decreases i
  {
    var v := SettingDefinition(e, overrides, settings[0].0, settings[0].1).value;
    var rest := settings[1..];
    if i == 0 {
      forall j | 0 <= j < |rest| ensures rest[j].0 != settings[0].0 {
        assert rest[j] == settings[j + 1];
      }
      ApplySettingsKeeps(vars[settings[0].0 := v], e, overrides, rest, settings[0].0);
    } else {
      assert rest[i - 1] == settings[i];
      forall j | i - 1 < j < |rest| ensures rest[j].0 != rest[i - 1].0 {
        assert rest[j] == settings[j + 1];
      }
      ApplySettingsDefines(vars[settings[0].0 := v], e, overrides, rest, i - 1);
    }
  }

  /** When the loop completes, a variable no setting names is as it was. */
  lemma {:induction false} ApplySettingsKeeps(vars: map<string, Value>, e: Expander,
      overrides: map<string, Override>, settings: seq<(string, string)>, k: string)
    requires k in vars
    requires forall j :: 0 <= j < |settings| ==> settings[j].0 != k
    requires ApplySettings(vars, e, overrides, settings).error.None?
    ensures k in ApplySettings(vars, e, overrides, settings).variables
    ensures ApplySettings(vars, e, overrides, settings).variables[k] == vars[k]
    decreases |settings|
  {
    if settings != [] {
      var v := SettingDefinition(e, overrides, settings[0].0, settings[0].1).value;
      var rest := settings[1..];
      forall j | 0 <= j < |rest| ensures rest[j].0 != k {
        assert rest[j] == settings[j + 1];
      }
      ApplySettingsKeeps(vars[settings[0].0 := v], e, overrides, rest, k);
    }
  }

  /** Without a calculated override (the standard workload), a setting keeps
      its expansion and its own comment. */
  lemma StandardSettingKeepsExpansion(e: Expander, setting: string, comment: string, expanded: string)
    requires ExpandVarName(e, setting, true) == Success(expanded)
    requires !Contains(e.workloadName, "mxp")
    ensures SettingDefinition(e, map[], setting, comment) == Success(Str(PadValue(Text(expanded), comment)))
  {
  }

  /** A calculated value replaces the expansion and a calculated comment is
      appended after a space; an "mxp" workload stores the number itself. */
  lemma OverrideWins(e: Expander, overrides: map<string, Override>, setting: string, comment: string,
                     n: int, extra: string)
    requires ExpandVarName(e, setting, true).Success?
    requires setting in overrides && overrides[setting] == Override(Some(n), Some(extra))
    ensures !Contains(e.workloadName, "mxp") ==>
      SettingDefinition(e, overrides, setting, comment) == Success(Str(PadValue(Number(n), comment + " " + extra)))
    ensures Contains(e.workloadName, "mxp") ==>
      SettingDefinition(e, overrides, setting, comment) == Success(Int(n))
  {
  }

  // -----------------------------------------------------------------------
  // The calculator

  /** The floating-point steps, given by their results: the target problem
      size int(sqrt(fullMemWords * memFraction)) from (nodes, memory per
      node, percent), and the used percentage from (problem size, nodes,
      memory per node). Either may raise. */
  datatype MemoryModel = MemoryModel(
    targetProblemSize: (int, int, int) -> Result<nat, CalcError>,
    usedPercentage: (int, int, int) -> Result<int, CalcError>)

  /** The numbers the calculator works out. */
  datatype Calculated = Calculated(grid: Grid, lcm: nat, blockSize: int, targetSize: nat, problemSize: int, usedPercentage: int)

  /** int(expander.expand_var_name(name)). */
  function IntVariable(e: Expander, name: string): Result<int, CalcError> {
    match ExpandVarName(e, name, true)
    case Failure(err) => Failure(ExpansionError(err))
    case Success(text) =>
      match ParseInt(text)
      case Some(n) => Success(n)
      case None => Failure(ValueError(text))
  }

  /** The calculator's arithmetic, in the order the source performs it. */
  function Calculate(e: Expander, memory: MemoryModel): (r: Result<Calculated, CalcError>)
    ensures r.Success? ==>
      && IntVariable(e, "n_nodes").Success? && IntVariable(e, "processes_per_node").Success?
      && BestGrid(IntVariable(e, "n_nodes").value * IntVariable(e, "processes_per_node").value) == Success(r.value.grid)
      && r.value.lcm == Lcm(r.value.grid.p, r.value.grid.q)
      && AlignProblemSize(r.value.targetSize, r.value.blockSize, r.value.lcm) == Success(r.value.problemSize)
  {
    var nNodes :- IntVariable(e, "n_nodes");
    var processesPerNode :- IntVariable(e, "processes_per_node");
    var grid :- BestGrid(nNodes * processesPerNode);
    var memoryPerNode :- IntVariable(e, "memory_per_node");
    var percentMem :- IntVariable(e, "percent_mem");
    var blockSize :- IntVariable(e, "block_size");
    var target :- memory.targetProblemSize(nNodes, memoryPerNode, percentMem);
    var problemSize :- AlignProblemSize(target, blockSize, Lcm(grid.p, grid.q));
    var used :- memory.usedPercentage(problemSize, nNodes, memoryPerNode);
    Success(Calculated(grid, Lcm(grid.p, grid.q), blockSize, target, problemSize, used))
  }

  /** calculated_settings. */
  function CalculatorOverrides(c: Calculated): map<string, Override> {
    map[
      "N-Ns" := Override(Some(1), None),
      "Ns" := Override(Some(c.problemSize),
        Some("(= " + IntToString(c.usedPercentage) + "% of total available memory)")),
      "N-NBs" := Override(Some(1), None),
      "NBs" := Override(Some(c.blockSize), None),
      "Ps" := Override(Some(c.grid.p), None),
      "Qs" := Override(Some(c.grid.q), None),
      "N-Grids" := Override(Some(1), None)]
  }

  /** _calculate_values: the calculator branch for workloads whose name
      contains "calculator" (standard defaults are defined for missing names
      once the arithmetic has succeeded), then the settings loop. */
  function CalculateValuesSpec(vars: map<string, Value>, e: Expander, memory: MemoryModel,
                               standardDefaults: map<string, Value>, settings: seq<(string, string)>): Outcome
  {
    if Contains(e.workloadName, "calculator") then
      match Calculate(e, memory)
      case Failure(err) => Outcome(vars, Some(err))
      case Success(c) => ApplySettings(WithDefaults(vars, standardDefaults), e, CalculatorOverrides(c), settings)
    else
      ApplySettings(vars, e, map[], settings)
  }

  /** What the calculator works out: the best grid for the cores, the least
      common multiple of P and Q, and, for a positive block size, the largest
      problem size below the target that is a multiple of NB * lcm. */
  lemma CalculatedValuesAreSound(e: Expander, memory: MemoryModel, c: Calculated, nNodes: int, processesPerNode: int)
    requires Calculate(e, memory) == Success(c)
    requires IntVariable(e, "n_nodes") == Success(nNodes)
    requires IntVariable(e, "processes_per_node") == Success(processesPerNode)
    ensures IsBestGrid(nNodes * processesPerNode, c.grid)
    ensures c.lcm == Lcm(c.grid.p, c.grid.q) && Divides(c.grid.p, c.lcm) && Divides(c.grid.q, c.lcm)
    ensures forall m: nat :: 0 < m < c.lcm && Divides(c.grid.q, m) ==> !Divides(c.grid.p, m)
    ensures c.blockSize > 0 ==> 0 <= c.problemSize <= c.targetSize < c.problemSize + c.blockSize * c.lcm
    ensures c.blockSize > 0 ==> Divides(c.blockSize * c.lcm, c.problemSize)
  {
    BestGridIsBest(nNodes * processesPerNode);
    LcmIsLeastCommonMultiple(c.grid.p, c.grid.q);
    if c.blockSize > 0 {
      ProblemSizeIsAligned(c.targetSize, c.blockSize, c.lcm);
    }
  }

  /** The settings with calculated values that the grid lemma follows:
      Ns, Ps and Qs at their places in hpl_settings, none named again later. */
  predicate CalculatedSlots(settings: seq<(string, string)>) {
    && |settings| > 9
    && settings[3] == ("Ns", "Ns, Problem Sizes")
    && settings[8] == ("Ps", "Ps, Dimension 1 parallelization")
    && settings[9] == ("Qs", "Qs, Dimension 2 parallelization")
    && (forall j :: 3 < j < |settings| ==> settings[j].0 != "Ns")
    && (forall j :: 8 < j < |settings| ==> settings[j].0 != "Ps")
    && (forall j :: 9 < j < |settings| ==> settings[j].0 != "Qs")
  }

  lemma HplSettingsCalculatedSlots()
    ensures CalculatedSlots(HplSettings)
  {
    NsSlot();
    PsSlot();
    QsSlot();
  }

  lemma NsSlot()
    ensures HplSettings[3] == ("Ns", "Ns, Problem Sizes")
    ensures forall j :: 3 < j < |HplSettings| ==> HplSettings[j].0 != "Ns"
  {}

  lemma PsSlot()
    ensures HplSettings[8] == ("Ps", "Ps, Dimension 1 parallelization")
    ensures forall j :: 8 < j < |HplSettings| ==> HplSettings[j].0 != "Ps"
  {}

  lemma QsSlot()
    ensures HplSettings[9] == ("Qs", "Qs, Dimension 2 parallelization")
    ensures forall j :: 9 < j < |HplSettings| ==> HplSettings[j].0 != "Qs"
  {}

  /** The calculated grid and problem size reach HPL.dat's Ps, Qs and Ns
      settings, Ns with its memory comment. */
  lemma CalculatorDefinesGrid(vars: map<string, Value>, e: Expander, memory: MemoryModel,
                              standardDefaults: map<string, Value>, c: Calculated)
    requires Contains(e.workloadName, "calculator") && !Contains(e.workloadName, "mxp")
    requires Calculate(e, memory) == Success(c)
    requires CalculateValuesSpec(vars, e, memory, standardDefaults, HplSettings).error.None?
    ensures var out := CalculateValuesSpec(vars, e, memory, standardDefaults, HplSettings).variables;
      && "Ps" in out && out["Ps"] == Str(PadValue(Number(c.grid.p), "Ps, Dimension 1 parallelization"))
      && "Qs" in out && out["Qs"] == Str(PadValue(Number(c.grid.q), "Qs, Dimension 2 parallelization"))
      && "Ns" in out && out["Ns"] == Str(PadValue(Number(c.problemSize), "Ns, Problem Sizes (= "
           + IntToString(c.usedPercentage) + "% of total available memory)"))
  {
    CalculatorBranch(vars, e, memory, standardDefaults, c, HplSettings);
    HplSettingsCalculatedSlots();
    CalculatorSettingsStored(WithDefaults(vars, standardDefaults), e, c, HplSettings);
  }

  /** The settings loop with the calculator's overrides stores them in Ns,
      Ps and Qs. */
  lemma CalculatorSettingsStored(start: map<string, Value>, e: Expander, c: Calculated, settings: seq<(string, string)>)
    requires !Contains(e.workloadName, "mxp") && CalculatedSlots(settings)
    requires ApplySettings(start, e, CalculatorOverrides(c), settings).error.None?
    ensures var out := ApplySettings(start, e, CalculatorOverrides(c), settings).variables;
      && "Ps" in out && out["Ps"] == Str(PadValue(Number(c.grid.p), "Ps, Dimension 1 parallelization"))
      && "Qs" in out && out["Qs"] == Str(PadValue(Number(c.grid.q), "Qs, Dimension 2 parallelization"))
      && "Ns" in out && out["Ns"] == Str(PadValue(Number(c.problemSize), "Ns, Problem Sizes (= "
           + IntToString(c.usedPercentage) + "% of total available memory)"))
  {
    var ov := CalculatorOverrides(c);
    CalculatorOverridesGrid(c);
    StoredOverride(start, e, ov, settings, 3);
    StoredOverride(start, e, ov, settings, 8);
    StoredOverride(start, e, ov, settings, 9);
    NsComment(IntToString(c.usedPercentage));
  }

  /** The Ns comment with the calculated memory note appended. */
  lemma NsComment(pct: string)
    ensures "Ns, Problem Sizes" + " " + ("(= " + pct + "% of total available memory)")
      == "Ns, Problem Sizes (= " + pct + "% of total available memory)"
  {
    var a, b, c, d := "Ns, Problem Sizes", " ", "(= ", "% of total available memory)";
    assert a + b + (c + pct + d) == (a + b + c) + pct + d;
    assert a + b + c == "Ns, Problem Sizes (= ";
  }

  /** A calculated setting that no later setting redefines is stored padded,
      with the calculated value and comment. */
  lemma StoredOverride(start: map<string, Value>, e: Expander, overrides: map<string, Override>,
                       settings: seq<(string, string)>, i: nat)
    requires !Contains(e.workloadName, "mxp")
    requires i < |settings| && settings[i].0 in overrides && overrides[settings[i].0].value.Some?
    requires forall j :: i < j < |settings| ==> settings[j].0 != settings[i].0
    requires ApplySettings(start, e, overrides, settings).error.None?
    ensures var (name, comment) := settings[i];
      var ov := overrides[name];
      && name in ApplySettings(start, e, overrides, settings).variables
      && ApplySettings(start, e, overrides, settings).variables[name] == Str(PadValue(Number(ov.value.value),
           if ov.comment.Some? then comment + " " + ov.comment.value else comment))
  {
    ApplySettingsDefines(start, e, overrides, settings, i);
    CalculatedSetting(e, overrides, settings[i].0, settings[i].1);
  }

  lemma CalculatorOverridesGrid(c: Calculated)
    ensures "Ns" in CalculatorOverrides(c) && CalculatorOverrides(c)["Ns"] == Override(Some(c.problemSize),
      Some("(= " + IntToString(c.usedPercentage) + "% of total available memory)"))
    ensures "Ps" in CalculatorOverrides(c) && CalculatorOverrides(c)["Ps"] == Override(Some(c.grid.p), None)
    ensures "Qs" in CalculatorOverrides(c) && CalculatorOverrides(c)["Qs"] == Override(Some(c.grid.q), None)
  {
  }

  /** Once the arithmetic succeeds, the calculator branch is the settings
      loop over the store with the standard defaults filled in. */
  lemma CalculatorBranch(vars: map<string, Value>, e: Expander, memory: MemoryModel,
                         standardDefaults: map<string, Value>, c: Calculated, settings: seq<(string, string)>)
    requires Contains(e.workloadName, "calculator")
    requires Calculate(e, memory) == Success(c)
    ensures CalculateValuesSpec(vars, e, memory, standardDefaults, settings) ==
      ApplySettings(WithDefaults(vars, standardDefaults), e, CalculatorOverrides(c), settings)
  {
  }

  /** A setting the calculator overrides, in a workload that pads. */
  lemma CalculatedSetting(e: Expander, overrides: map<string, Override>, setting: string, comment: string)
    requires !Contains(e.workloadName, "mxp")
    requires setting in overrides && overrides[setting].value.Some?
    requires SettingDefinition(e, overrides, setting, comment).Success?
    ensures SettingDefinition(e, overrides, setting, comment).value == Str(PadValue(Number(overrides[setting].value.value),
      if overrides[setting].comment.Some? then comment + " " + overrides[setting].comment.value else comment))
  {
  }

  /** _calculate_values as a sequence of steps on the application's store. */
  method CalculateValues(app: Application, memory: MemoryModel, standardDefaults: map<string, Value>,
                         settings: seq<(string, string)>) returns (error: Option<CalcError>)
    modifies app`variables
    ensures Outcome(app.variables, error) ==
      CalculateValuesSpec(old(app.variables), app.expander, memory, standardDefaults, settings)
  {
    var e := app.expander;
    var overrides: map<string, Override> := map[];
    if Contains(e.workloadName, "calculator") {
      var c := CalculatorSteps(e, memory);
      if c.Failure? {
        return Some(c.error);
      }
      app.DefineMissing(standardDefaults);
      overrides := CalculatorOverrides(c.value);
    }
    error := ApplyHplSettings(app, overrides, settings);
  }

  /** The calculator's arithmetic with its two loops. */
  method CalculatorSteps(e: Expander, memory: MemoryModel) returns (r: Result<Calculated, CalcError>)
    ensures r == Calculate(e, memory)
  {
    var nNodes :- IntVariable(e, "n_nodes");
    var processesPerNode :- IntVariable(e, "processes_per_node");
    var totalCores := nNodes * processesPerNode;
    var grid :- ChooseGrid(totalCores);
    var lcm := LeastCommonMultiple(grid.p, grid.q);
    var memoryPerNode :- IntVariable(e, "memory_per_node");
    var percentMem :- IntVariable(e, "percent_mem");
    var blockSize :- IntVariable(e, "block_size");
    var target :- memory.targetProblemSize(nNodes, memoryPerNode, percentMem);
    var problemSize :- AlignProblemSize(target, blockSize, lcm);
    var used :- memory.usedPercentage(problemSize, nNodes, memoryPerNode);
    r := Success(Calculated(grid, lcm, blockSize, target, problemSize, used));
  }

  /** The settings loop on the application's store. */
  method ApplyHplSettings(app: Application, overrides: map<string, Override>, settings: seq<(string, string)>)
    returns (error: Option<CalcError>)
    modifies app`variables
    ensures Outcome(app.variables, error) == ApplySettings(old(app.variables), app.expander, overrides, settings)
  {
    for i := 0 to |settings|
      invariant ApplySettings(app.variables, app.expander, overrides, settings[i..]) ==
        ApplySettings(old(app.variables), app.expander, overrides, settings)
    {
      assert settings[i..][0] == settings[i] && settings[i..][1..] == settings[i + 1..];
      var (setting, comment) := settings[i];
      match SettingDefinition(app.expander, overrides, setting, comment) {
        case Failure(err) => return Some(err);
        case Success(v) => app.DefineVariable(setting, v);
      }
    }
    error := None;
  }

  // -----------------------------------------------------------------------
  // HPL.dat

  const DatHeader: seq<string> := ["    HPLinpack benchmark input file", "Innovative Computing Laboratory, " + "University of Tennessee"]
  const DatFooter: string := "##### This line (no. 32) " + "is ignored (it serves as " + "a separator). ######"

  /** The settings written to HPL.dat, in file order: the names of hpl_settings. */
  function SettingNames(settings: seq<(string, string)>): (names: seq<string>)
    ensures |names| == |settings| && forall i :: 0 <= i < |settings| ==> names[i] == settings[i].0
  {
    if settings == [] then [] else [settings[0].0] + SettingNames(settings[1..])
  }

  /** Each line followed by a newline. */
  function Terminated(lines: seq<string>): string {
    if lines == [] then "" else lines[0] + "\n" + Terminated(lines[1..])
  }

  lemma {:induction false} TerminatedAppend(lines: seq<string>, line: string)
    ensures Terminated(lines + [line]) == Terminated(lines) + line + "\n"
  {
    if lines != [] {
      assert (lines + [line])[1..] == lines[1..] + [line];
      TerminatedAppend(lines[1..], line);
    }
  }

  lemma {:induction false} TerminatedConcat(a: seq<string>, b: seq<string>)
    ensures Terminated(a + b) == Terminated(a) + Terminated(b)
  {
    if a != [] {
      assert (a + b)[1..] == a[1..] + b;
      TerminatedConcat(a[1..], b);
    } else {
      assert a + b == b;
    }
  }

  /** The setting lines: each expansion with "Number" replaced by "#" (so the
      comment survives the expander), stopping at the first failure. */
  function DatLines(e: Expander, names: seq<string>): (r: Result<seq<string>, ExpanderError>)
    ensures r.Success? ==> |r.value| == |names|
  {
    if names == [] then Success([])
    else
      var n := |names| - 1;
      match DatLines(e, names[..n])
      case Failure(err) => Failure(err)
      case Success(lines) =>
        match ExpandVarName(e, names[n], true)
        case Failure(err) => Failure(err)
        case Success(v) => Success(lines + [Replace(v, "Number", "#")])
  }

  /** Each written line is its setting's expansion with "Number" replaced. */
  lemma {:induction false} DatLinesContents(e: Expander, names: seq<string>)
    requires DatLines(e, names).Success?
    ensures forall i :: 0 <= i < |names| ==>
      ExpandVarName(e, names[i], true).Success? &&
      DatLines(e, names).value[i] == Replace(ExpandVarName(e, names[i], true).value, "Number", "#")
  {
    if names != [] {
      var n := |names| - 1;
      DatLinesContents(e, names[..n]);
      forall i | 0 <= i < n
        ensures names[i] == names[..n][i]
      {
      }
    }
  }

  /** The text of HPL.dat. */
  function DatText(lines: seq<string>): string {
    Terminated(DatHeader + lines) + DatFooter
  }

  /** The body of _make_experiments that writes HPL.dat, returning the text. */
  method MakeHplDat(e: Expander, names: seq<string>) returns (r: Result<string, ExpanderError>)
    ensures DatLines(e, names).Failure? ==> r == Failure(DatLines(e, names).error)
    ensures DatLines(e, names).Success? ==> r == Success(DatText(DatLines(e, names).value))
  {
    var text := Terminated(DatHeader);
    var written := WriteSettingLines(e, names, text);
    if written.Failure? {
      return Failure(written.error);
    }
    TerminatedConcat(DatHeader, DatLines(e, names).value);
    r := Success(written.value + DatFooter);
  }

  /** The loop of _make_experiments over the settings, each line written
      after the text already there. */
  method WriteSettingLines(e: Expander, names: seq<string>, head: string) returns (r: Result<string, ExpanderError>)
    ensures DatLines(e, names).Failure? ==> r == Failure(DatLines(e, names).error)
    ensures DatLines(e, names).Success? ==> r == Success(head + Terminated(DatLines(e, names).value))
  {
    var text := head;
    ghost var lines: seq<string> := [];
    for i := 0 to |names|
      invariant DatLines(e, names[..i]) == Success(lines)
      invariant text == head + Terminated(lines)
    {
      var expanded := ExpandVarName(e, names[i], true);
      if expanded.Failure? {
        assert names[..i + 1][..i] == names[..i];
        DatLinesFailurePersists(e, names, i + 1);
        return Failure(expanded.error);
      }
      var line := Replace(expanded.value, "Number", "#");
      DatLinesStep(e, names, i, lines);
      TerminatedAppend(lines, line);
      AppendLine(head, Terminated(lines), line);
      text := text + line + "\n";
      lines := lines + [line];
    }
    assert names[..|names|] == names;
    r := Success(text);
  }

  /** One more name that expands adds its line. */
  lemma DatLinesStep(e: Expander, names: seq<string>, i: nat, lines: seq<string>)
    requires i < |names| && DatLines(e, names[..i]) == Success(lines)
    requires ExpandVarName(e, names[i], true).Success?
    ensures DatLines(e, names[..i + 1]) == Success(lines + [Replace(ExpandVarName(e, names[i], true).value, "Number", "#")])
  {
    assert names[..i + 1][..i] == names[..i] && names[..i + 1][i] == names[i];
  }

  /** Once a prefix of the names fails, the whole list fails the same way. */
  lemma {:induction false} DatLinesFailurePersists(e: Expander, names: seq<string>, k: nat)
    requires k <= |names| && DatLines(e, names[..k]).Failure?
    ensures DatLines(e, names) == DatLines(e, names[..k])
    decreases |names| - k
  {
    if k < |names| {
      var n := |names| - 1;
      assert names[..n][..k] == names[..k];
      DatLinesFailurePersists(e, names[..n], k);
    } else {
      assert names[..k] == names;
    }
  }

  /** Lines without newlines, each terminated, split back into themselves. */
  lemma {:induction false} SplitTerminated(lines: seq<string>, tail: string)
    requires forall i :: 0 <= i < |lines| ==> '\n' !in lines[i]
    ensures Split(Terminated(lines) + tail, '\n') == lines + Split(tail, '\n')
  {
    if lines != [] {
      var rest := Terminated(lines[1..]) + tail;
      Regroup(lines[0], Terminated(lines[1..]), tail);
      assert '\n' !in lines[0];
      SplitConcat(lines[0], rest, '\n');
      assert forall i :: 0 <= i < |lines[1..]| ==> lines[1..][i] == lines[i + 1];
      SplitTerminated(lines[1..], tail);
      ConsAppend(lines, Split(tail, '\n'));
    } else {
      assert Terminated(lines) + tail == tail;
    }
  }

  /** A line and its break written after the text so far, regrouped. */
  lemma AppendLine(head: string, written: string, line: string)
    ensures head + written + line + "\n" == head + (written + line + "\n")
  {
  }

  /** A terminated line followed by more text, regrouped. */
  lemma Regroup(line: string, more: string, tail: string)
    ensures line + "\n" + more + tail == line + ['\n'] + (more + tail)
  {
  }

  /** The head of a list, then its rest and more, is the list and more. */
  lemma ConsAppend(xs: seq<string>, ys: seq<string>)
    requires xs != []
    ensures [xs[0]] + (xs[1..] + ys) == xs + ys
  {
  }

  // The header lines hold no newline; the second is checked in two halves.
  lemma FirstHeaderLineHasNoNewline() ensures '\n' !in "    HPLinpack benchmark input file" {}
  lemma SecondHeaderLineStartHasNoNewline() ensures '\n' !in "Innovative Computing Laboratory, " {}
  lemma SecondHeaderLineEndHasNoNewline() ensures '\n' !in "University of Tennessee" {}
  lemma SecondHeaderLineHalves()
    ensures DatHeader[1] == "Innovative Computing Laboratory, " + "University of Tennessee"
  {}

  lemma HeaderHasNoNewline()
    ensures forall i :: 0 <= i < |DatHeader| ==> '\n' !in DatHeader[i]
  {
    FirstHeaderLineHasNoNewline();
    SecondHeaderLineStartHasNoNewline();
    SecondHeaderLineEndHasNoNewline();
    SecondHeaderLineHalves();
  }

  // The separator line holds no newline; it is checked in three parts.
  lemma FooterStartHasNoNewline() ensures '\n' !in "##### This line (no. 32) " {}
  lemma FooterMiddleHasNoNewline() ensures '\n' !in "is ignored (it serves as " {}
  lemma FooterEndHasNoNewline() ensures '\n' !in "a separator). ######" {}
  lemma FooterParts()
    ensures DatFooter == "##### This line (no. 32) " + "is ignored (it serves as " + "a separator). ######"
  {}

  lemma FooterHasNoNewline()
    ensures '\n' !in DatFooter
  {
    FooterStartHasNoNewline();
    FooterMiddleHasNoNewline();
    FooterEndHasNoNewline();
    FooterParts();
  }

  /** Every setting expands, and no expansion contains a newline. */
  predicate ExpandsWithoutNewline(e: Expander, names: seq<string>) {
    forall i :: 0 <= i < |names| ==>
      ExpandVarName(e, names[i], true).Success? && '\n' !in ExpandVarName(e, names[i], true).value
  }

  /** When no expansion contains a newline, HPL.dat splits into the two
      header lines, one line per setting in order, and the separator last. */
  lemma DatLayout(e: Expander, names: seq<string>, lines: seq<string>)
    requires DatLines(e, names) == Success(lines)
    requires ExpandsWithoutNewline(e, names)
    ensures Split(DatText(lines), '\n') == DatHeader + lines + [DatFooter]
  {
    DatLinesContents(e, names);
    forall i | 0 <= i < |lines| ensures '\n' !in lines[i] {
      ReplaceKeepsCharOut(ExpandVarName(e, names[i], true).value, "Number", "#", '\n');
    }
    var all := DatHeader + lines;
    HeaderHasNoNewline();
    forall i | 0 <= i < |all| ensures '\n' !in all[i] {
      if i < 2 {
        assert all[i] == DatHeader[i];
      } else {
        assert all[i] == lines[i - 2];
      }
    }
    SplitTerminated(all, DatFooter);
    FooterHasNoNewline();
    SplitWithoutSeparator(DatFooter, '\n');
  }

  /** hpl_settings names 29 settings. */
  lemma HplSettingsCount()
    ensures |SettingNames(HplSettings)| == 29
  {
  }

  /** With 29 settings, as hpl_settings has, the separator is line 32, as
      it says. */
  lemma SeparatorIsLine32(e: Expander, names: seq<string>, lines: seq<string>)
    requires |names| == 29
    requires DatLines(e, names) == Success(lines)
    requires ExpandsWithoutNewline(e, names)
    ensures var parts := Split(DatText(lines), '\n'); |parts| == 32 && parts[31] == DatFooter
  {
    DatLayout(e, names, lines);
  }
}
