/** The mask aggregation of `valid_region` and the error policy of `safe_valid_region`:
    every band is opened and read in turn, turned into a boolean validity mask, and
    OR-ed in place into the running mask. */
module ValidRegion {

  import opened Wrappers
  import opened PyValues

  // ---------------------------------------------------------------------------
  // Python's `&` on integers

  /** `a & b` on Python (and numpy) integers: two's complement of unbounded width. */
  function BitAnd(a: int, b: int): int
    decreases if a < 0 then -a else a
  {
    if a == 0 || b == 0 then 0
    else if a == -1 then b
    else if b == -1 then a
    else 2 * BitAnd(a / 2, b / 2) + (if a % 2 == 1 && b % 2 == 1 then 1 else 0)
  }

  /** Bit i of a in two's complement (negative numbers have infinitely many ones). */
  function Bit(a: int, i: nat): (b: int)
    ensures b == 0 || b == 1
    decreases i
  {
    if i == 0 then a % 2 else Bit(a / 2, i - 1)
  }

  /** The reference meaning of `&`: bit i of `a & b` is set exactly when bit i is set in both. */
  lemma {:induction false} BitOfAnd(a: int, b: int, i: nat)
    ensures Bit(BitAnd(a, b), i) == Bit(a, i) * Bit(b, i)
    decreases if a < 0 then -a else a
  {
    if a == 0 || b == 0 {
      BitOfZero(i);
    } else if a == -1 {
      BitOfMinusOne(i);
    } else if b == -1 {
      BitOfMinusOne(i);
    } else {
      var low := if a % 2 == 1 && b % 2 == 1 then 1 else 0;
      var r := 2 * BitAnd(a / 2, b / 2) + low;
      assert r % 2 == low && r / 2 == BitAnd(a / 2, b / 2);
      if i > 0 {
        BitOfAnd(a / 2, b / 2, i - 1);
      }
    }
  }

  lemma {:induction false} BitOfZero(i: nat)
    ensures Bit(0, i) == 0
  {
    if i > 0 {
      BitOfZero(i - 1);
    }
  }

  lemma {:induction false} BitOfMinusOne(i: nat)
    ensures Bit(-1, i) == 1
  {
    if i > 0 {
      BitOfMinusOne(i - 1);
    }
  }

  /** Two integers with the same bits are equal. */
  lemma {:induction false} BitsDetermine(a: int, b: int)
    requires forall i: nat :: Bit(a, i) == Bit(b, i)
    ensures a == b
    decreases (if a < 0 then -a else a) + (if b < 0 then -b else b)
  {
    assert Bit(a, 0) == Bit(b, 0);
    if (a == 0 || a == -1) && (b == 0 || b == -1) {
    } else {
      forall i: nat ensures Bit(a / 2, i) == Bit(b / 2, i) {
        assert Bit(a, i + 1) == Bit(b, i + 1);
      }
      BitsDetermine(a / 2, b / 2);
    }
  }

  /** Every bit set in m is set in the sample. */
  ghost predicate BitsCovered(sample: int, m: int)
  {
    forall i: nat :: Bit(m, i) == 1 ==> Bit(sample, i) == 1
  }

  /** The bit test `(sample & m) == m` holds exactly when every bit set in m is set in the sample. */
  lemma BitTestIff(sample: int, m: int)
    ensures BitAnd(sample, m) == m <==> BitsCovered(sample, m)
  {
    forall i: nat ensures Bit(BitAnd(sample, m), i) == Bit(sample, i) * Bit(m, i) {
      BitOfAnd(sample, m, i);
    }
    if BitAnd(sample, m) == m {
      forall i: nat | Bit(m, i) == 1 ensures Bit(sample, i) == 1 {
        assert Bit(m, i) == Bit(sample, i) * Bit(m, i);
      }
    } else if BitsCovered(sample, m) {
      forall i: nat ensures Bit(BitAnd(sample, m), i) == Bit(m, i) {
        if Bit(m, i) == 1 {
          assert Bit(sample, i) == 1;
        }
      }
      BitsDetermine(BitAnd(sample, m), m);
      assert false;
    }
  }

  // ---------------------------------------------------------------------------
  // Grids

  /** A raster grid of `height` rows and `width` columns, stored row by row. */
  datatype Grid<T> = Grid(height: nat, width: nat, cells: seq<T>)

  /** The grid holds one cell per pixel, as every array that rasterio returns does. */
  predicate WellFormed<T>(g: Grid<T>)
  {
    |g.cells| == g.height * g.width
  }

  /** What opening and reading band 1 of one raster file produced. */
  type BandRead = Result<Grid<int>, Error>

  /** The per-pixel test: with a mask value m, `(sample & m) == m`; without, `sample != 0`. */
  predicate PixelValid(sample: int, maskValue: Option<int>)
  {
    match maskValue
    case Some(m) => BitAnd(sample, m) == m
    case None => sample != 0
  }

  /** `new_mask`: the validity of every pixel of one band. */
  function BandMask(img: Grid<int>, maskValue: Option<int>): (nm: seq<bool>)
    ensures |nm| == |img.cells|
    ensures forall k :: 0 <= k < |nm| ==> nm[k] == PixelValid(img.cells[k], maskValue)
  {
    seq(|img.cells|, k requires 0 <= k < |img.cells| => PixelValid(img.cells[k], maskValue))
  }

  /** Pixel-wise OR of two masks of the same size. */
  function Or(a: seq<bool>, b: seq<bool>): (c: seq<bool>)
    requires |a| == |b|
    ensures |c| == |a|
    ensures forall k :: 0 <= k < |c| ==> c[k] == (a[k] || b[k])
  {
    seq(|a|, k requires 0 <= k < |a| => a[k] || b[k])
  }

  // ---------------------------------------------------------------------------
  // Specification of the band loop

  /** The band loop from a running mask (None before the first band) over the remaining
      reads: a failed read aborts, the first band becomes the mask, every later band of
      the same shape is OR-ed into it, a band of another shape makes numpy refuse. */
  function Accumulate(mask: Option<Grid<bool>>, rest: seq<BandRead>, maskValue: Option<int>)
    : Result<Option<Grid<bool>>, Error>
    decreases |rest|
  {
    if rest == [] then Success(mask)
    else match rest[0]
      case Failure(err) => Failure(err)
      case Success(img) =>
        var nm := BandMask(img, maskValue);
        match mask
        case None => Accumulate(Some(Grid(img.height, img.width, nm)), rest[1..], maskValue)
        case Some(m) =>
          if img.height != m.height || img.width != m.width || |m.cells| != |nm| then
            Failure(ValueError("operands could not be broadcast together"))
          else
            Accumulate(Some(Grid(m.height, m.width, Or(m.cells, nm))), rest[1..], maskValue)
  }

  /** The mask `valid_region` hands to the vectorizer; with no band at all, `mask` is
      still None and `mask.astype` fails. */
  function ValidMaskOf(bands: seq<BandRead>, maskValue: Option<int>): Result<Grid<bool>, Error>
  {
    match Accumulate(None, bands, maskValue)
    case Failure(err) => Failure(err)
    case Success(None) => Failure(AttributeError("'NoneType' object has no attribute 'astype'"))
    case Success(Some(g)) => Success(g)
  }

  /** `safe_valid_region`: an I/O-class failure becomes None, any other failure propagates. */
  function SafeValidMask(bands: seq<BandRead>, maskValue: Option<int>): Result<Option<Grid<bool>>, Error>
  {
    match ValidMaskOf(bands, maskValue)
    case Success(g) => Success(Some(g))
    case Failure(err) => if err.IsIOError() then Success(None) else Failure(err)
  }

  // ---------------------------------------------------------------------------
  // The loop itself

  /** The band loop of `valid_region`, accumulating `mask |= new_mask` in place. */
  method ValidMask(bands: seq<BandRead>, maskValue: Option<int>) returns (r: Result<Grid<bool>, Error>)
    requires forall i :: 0 <= i < |bands| && bands[i].Success? ==> WellFormed(bands[i].value)
    ensures r == ValidMaskOf(bands, maskValue)
  {
    var mask := new bool[0];
    var have := false;
    var height: nat, width: nat := 0, 0;
    var i := 0;
    while i < |bands|
      invariant 0 <= i <= |bands|
      invariant fresh(mask)
      invariant have ==> mask.Length == height * width
      invariant Accumulate(None, bands, maskValue)
             == Accumulate(if have then Some(Grid(height, width, mask[..])) else None, bands[i..], maskValue)
    {
      assert bands[i..][1..] == bands[i + 1..];
      match bands[i] {
        case Failure(err) =>
          r := Failure(err);
          return;
        case Success(img) =>
          var newMask := BandMask(img, maskValue);
          if !have {
            mask := new bool[|newMask|](k requires 0 <= k < |newMask| => newMask[k]);
            assert mask[..] == newMask;
            have, height, width := true, img.height, img.width;
          } else if img.height != height || img.width != width {
            r := Failure(ValueError("operands could not be broadcast together"));
            return;
          } else {
            ghost var before := mask[..];
            forall k | 0 <= k < mask.Length {
              mask[k] := mask[k] || newMask[k];
            }
            assert mask[..] == Or(before, newMask);
          }
      }
      i := i + 1;
    }
    if !have {
      r := Failure(AttributeError("'NoneType' object has no attribute 'astype'"));
      return;
    }
    r := Success(Grid(height, width, mask[..]));
  }

  // ---------------------------------------------------------------------------
  // What the aggregation computes

  /** Every band was opened and read, and every array holds one cell per pixel. */
  predicate AllRead(bands: seq<BandRead>)
  {
    forall i :: 0 <= i < |bands| ==> bands[i].Success? && WellFormed(bands[i].value)
  }

  /** Every band has `height` rows and `width` columns. */
  predicate SameShape(bands: seq<BandRead>, height: nat, width: nat)
    requires AllRead(bands)
  {
    forall i :: 0 <= i < |bands| ==> bands[i].value.height == height && bands[i].value.width == width
  }

  /** Pixel k passes the test in at least one band. */
  ghost predicate MarkedBySome(bands: seq<BandRead>, maskValue: Option<int>, k: int)
    requires AllRead(bands)
  {
    exists i :: 0 <= i < |bands| && 0 <= k < |bands[i].value.cells|
                && PixelValid(bands[i].value.cells[k], maskValue)
  }

  lemma {:induction false} AccumulateSameShape(g: Grid<bool>, rest: seq<BandRead>, maskValue: Option<int>)
    requires WellFormed(g) && AllRead(rest) && SameShape(rest, g.height, g.width)
    ensures var r := Accumulate(Some(g), rest, maskValue);
            && r.Success? && r.value.Some?
            && r.value.value.height == g.height && r.value.value.width == g.width
            && WellFormed(r.value.value)
            && forall k :: 0 <= k < |g.cells| ==>
                 (r.value.value.cells[k] <==> g.cells[k] || MarkedBySome(rest, maskValue, k))
    decreases |rest|
  {
    if rest != [] {
      var img := rest[0].value;
      var g' := Grid(g.height, g.width, Or(g.cells, BandMask(img, maskValue)));
      assert AllRead(rest[1..]) && SameShape(rest[1..], g.height, g.width) by {
        forall i | 0 <= i < |rest[1..]| ensures rest[1..][i] == rest[i + 1] { }
      }
      AccumulateSameShape(g', rest[1..], maskValue);
      var r := Accumulate(Some(g), rest, maskValue);
      assert r == Accumulate(Some(g'), rest[1..], maskValue);
      forall k | 0 <= k < |g.cells|
        ensures r.value.value.cells[k] <==> g.cells[k] || MarkedBySome(rest, maskValue, k)
      {
        if MarkedBySome(rest, maskValue, k) {
          var i :| 0 <= i < |rest| && 0 <= k < |rest[i].value.cells| && PixelValid(rest[i].value.cells[k], maskValue);
          if i > 0 {
            assert rest[1..][i - 1] == rest[i];
            assert MarkedBySome(rest[1..], maskValue, k);
          }
        }
        if MarkedBySome(rest[1..], maskValue, k) {
          var i :| 0 <= i < |rest[1..]| && 0 <= k < |rest[1..][i].value.cells| && PixelValid(rest[1..][i].value.cells[k], maskValue);
          assert rest[1..][i] == rest[i + 1];
        }
      }
    }
  }

  lemma {:induction false} AccumulateMismatch(g: Grid<bool>, rest: seq<BandRead>, maskValue: Option<int>)
    requires WellFormed(g) && AllRead(rest) && !SameShape(rest, g.height, g.width)
    ensures Accumulate(Some(g), rest, maskValue) == Failure(ValueError("operands could not be broadcast together"))
    decreases |rest|
  {
    var img := rest[0].value;
    if img.height == g.height && img.width == g.width {
      var g' := Grid(g.height, g.width, Or(g.cells, BandMask(img, maskValue)));
      assert AllRead(rest[1..]) && !SameShape(rest[1..], g.height, g.width) by {
        forall i | 0 <= i < |rest[1..]| ensures rest[1..][i] == rest[i + 1] { }
        var i :| 0 <= i < |rest| && !(rest[i].value.height == g.height && rest[i].value.width == g.width);
        assert rest[1..][i - 1] == rest[i];
      }
      AccumulateMismatch(g', rest[1..], maskValue);
    }
  }

  /** When every band reads: no band at all leaves no mask, bands of one shape give the
      pixel-wise OR of their tests, and bands of different shapes are refused. */
  lemma ValidMaskOfReadBands(bands: seq<BandRead>, maskValue: Option<int>)
    requires AllRead(bands)
    ensures bands == [] ==> ValidMaskOf(bands, maskValue) == Failure(AttributeError("'NoneType' object has no attribute 'astype'"))
    ensures bands != [] && SameShape(bands, bands[0].value.height, bands[0].value.width) ==>
              var r := ValidMaskOf(bands, maskValue);
              && r.Success?
              && r.value.height == bands[0].value.height && r.value.width == bands[0].value.width
              && WellFormed(r.value)
              && forall k :: 0 <= k < |r.value.cells| ==> (r.value.cells[k] <==> MarkedBySome(bands, maskValue, k))
    ensures bands != [] && !SameShape(bands, bands[0].value.height, bands[0].value.width) ==>
              ValidMaskOf(bands, maskValue) == Failure(ValueError("operands could not be broadcast together"))
  {
    if bands != [] {
      var img := bands[0].value;
      var g := Grid(img.height, img.width, BandMask(img, maskValue));
      assert Accumulate(None, bands, maskValue) == Accumulate(Some(g), bands[1..], maskValue);
      assert AllRead(bands[1..]) by {
        forall i | 0 <= i < |bands[1..]| ensures bands[1..][i] == bands[i + 1] { }
      }
      if SameShape(bands, img.height, img.width) {
        assert SameShape(bands[1..], img.height, img.width) by {
          forall i | 0 <= i < |bands[1..]| ensures bands[1..][i] == bands[i + 1] { }
        }
        AccumulateSameShape(g, bands[1..], maskValue);
        var r := ValidMaskOf(bands, maskValue);
        forall k | 0 <= k < |r.value.cells|
          ensures r.value.cells[k] <==> MarkedBySome(bands, maskValue, k)
        {
          if MarkedBySome(bands, maskValue, k) {
            var i :| 0 <= i < |bands| && 0 <= k < |bands[i].value.cells| && PixelValid(bands[i].value.cells[k], maskValue);
            if i > 0 {
              assert bands[1..][i - 1] == bands[i];
              assert MarkedBySome(bands[1..], maskValue, k);
            }
          }
          if MarkedBySome(bands[1..], maskValue, k) {
            var i :| 0 <= i < |bands[1..]| && 0 <= k < |bands[1..][i].value.cells| && PixelValid(bands[1..][i].value.cells[k], maskValue);
            assert bands[1..][i] == bands[i + 1];
          }
        }
      } else {
        assert !SameShape(bands[1..], img.height, img.width) by {
          var i :| 0 <= i < |bands| && !(bands[i].value.height == img.height && bands[i].value.width == img.width);
          assert bands[1..][i - 1] == bands[i];
        }
        AccumulateMismatch(g, bands[1..], maskValue);
      }
    }
  }

  /** The order in which the bands are listed does not change the mask. */
  lemma ValidMaskOrderIrrelevant(bands: seq<BandRead>, bands': seq<BandRead>, maskValue: Option<int>)
    requires AllRead(bands) && multiset(bands) == multiset(bands')
    ensures ValidMaskOf(bands, maskValue) == ValidMaskOf(bands', maskValue)
  {
    forall x | x in bands' ensures x in bands {
      assert x in multiset(bands');
    }
    forall x | x in bands ensures x in bands' {
      assert x in multiset(bands);
    }
    assert |bands| == |bands'| by {
      assert |multiset(bands)| == |multiset(bands')|;
    }
    assert AllRead(bands') by {
      forall j | 0 <= j < |bands'| ensures bands'[j].Success? && WellFormed(bands'[j].value) {
        assert bands'[j] in bands;
      }
    }
    ValidMaskOfReadBands(bands, maskValue);
    ValidMaskOfReadBands(bands', maskValue);
    if bands != [] {
      var h, w := bands[0].value.height, bands[0].value.width;
      var h', w' := bands'[0].value.height, bands'[0].value.width;
      SameShapeOfSameBands(bands, bands', h, w);
      SameShapeOfSameBands(bands, bands', h', w');
      if SameShape(bands, h, w) {
        assert bands'[0] in bands;
        var r, r' := ValidMaskOf(bands, maskValue).value, ValidMaskOf(bands', maskValue).value;
        forall k | 0 <= k < |r.cells| ensures r.cells[k] == r'.cells[k] {
          MarkedBySomeOfSameBands(bands, bands', maskValue, k);
        }
        assert r.cells == r'.cells;
      } else {
        assert bands[0] in bands';
      }
    }
  }

  /** Two lists holding the same bands agree on whether all have one shape. */
  lemma SameShapeOfSameBands(bands: seq<BandRead>, bands': seq<BandRead>, height: nat, width: nat)
    requires AllRead(bands) && AllRead(bands')
    requires forall x :: x in bands <==> x in bands'
    ensures SameShape(bands, height, width) <==> SameShape(bands', height, width)
  {
    if SameShape(bands, height, width) {
      forall j | 0 <= j < |bands'| ensures bands'[j].value.height == height && bands'[j].value.width == width {
        assert bands'[j] in bands;
      }
    }
    if SameShape(bands', height, width) {
      forall i | 0 <= i < |bands| ensures bands[i].value.height == height && bands[i].value.width == width {
        assert bands[i] in bands';
      }
    }
  }

  /** Two lists holding the same bands mark the same pixels. */
  lemma MarkedBySomeOfSameBands(bands: seq<BandRead>, bands': seq<BandRead>, maskValue: Option<int>, k: int)
    requires AllRead(bands) && AllRead(bands')
    requires forall x :: x in bands <==> x in bands'
    ensures MarkedBySome(bands, maskValue, k) <==> MarkedBySome(bands', maskValue, k)
  {
    if MarkedBySome(bands, maskValue, k) {
      var i :| 0 <= i < |bands| && 0 <= k < |bands[i].value.cells| && PixelValid(bands[i].value.cells[k], maskValue);
      assert bands[i] in bands';
      var j :| 0 <= j < |bands'| && bands'[j] == bands[i];
    }
    if MarkedBySome(bands', maskValue, k) {
      var j :| 0 <= j < |bands'| && 0 <= k < |bands'[j].value.cells| && PixelValid(bands'[j].value.cells[k], maskValue);
      assert bands'[j] in bands;
      var i :| 0 <= i < |bands| && bands[i] == bands'[j];
    }
  }

  lemma {:induction false} AccumulateStopsAt(g: Grid<bool>, rest: seq<BandRead>, maskValue: Option<int>, i: nat)
    requires WellFormed(g) && i < |rest| && rest[i].Failure?
    requires forall j :: 0 <= j < i ==>
               (rest[j].Success? && WellFormed(rest[j].value)
                && rest[j].value.height == g.height && rest[j].value.width == g.width)
    ensures Accumulate(Some(g), rest, maskValue) == Failure(rest[i].error)
    decreases i
  {
    if i > 0 {
      var g' := Grid(g.height, g.width, Or(g.cells, BandMask(rest[0].value, maskValue)));
      forall j | 0 <= j < i - 1 ensures rest[1..][j] == rest[j + 1] { }
      AccumulateStopsAt(g', rest[1..], maskValue, i - 1);
    }
  }

  /** The first band that fails to open or read decides the outcome, provided the bands
      before it agree in shape: an I/O-class failure makes `safe_valid_region` give None,
      any other failure escapes it. */
  lemma SafeValidMaskFirstFailure(bands: seq<BandRead>, maskValue: Option<int>, i: nat)
    requires i < |bands| && bands[i].Failure?
    requires forall j :: 0 <= j < i ==>
               (bands[j].Success? && WellFormed(bands[j].value)
                && bands[0].Success? && bands[j].value.height == bands[0].value.height
                && bands[j].value.width == bands[0].value.width)
    ensures ValidMaskOf(bands, maskValue) == Failure(bands[i].error)
    ensures bands[i].error.IsIOError() ==> SafeValidMask(bands, maskValue) == Success(None)
    ensures !bands[i].error.IsIOError() ==> SafeValidMask(bands, maskValue) == Failure(bands[i].error)
  {
    if i > 0 {
      var img := bands[0].value;
      var g := Grid(img.height, img.width, BandMask(img, maskValue));
      forall j | 0 <= j < i - 1 ensures bands[1..][j] == bands[j + 1] { }
      AccumulateStopsAt(g, bands[1..], maskValue, i - 1);
    }
  }

  /** With no band at all the AttributeError is not one `safe_valid_region` catches. */
  lemma SafeValidMaskOfNoBands(maskValue: Option<int>)
    ensures SafeValidMask([], maskValue) == Failure(AttributeError("'NoneType' object has no attribute 'astype'"))
    ensures !SafeValidMask([], maskValue).error.IsIOError()
  {
  }

  /** A successful safe mask is the mask itself; None only ever stands for an I/O-class failure. */
  lemma SafeValidMaskOutcomes(bands: seq<BandRead>, maskValue: Option<int>)
    ensures SafeValidMask(bands, maskValue) == Success(None) <==>
              ValidMaskOf(bands, maskValue).Failure? && ValidMaskOf(bands, maskValue).error.IsIOError()
    ensures forall g :: SafeValidMask(bands, maskValue) == Success(Some(g)) <==> ValidMaskOf(bands, maskValue) == Success(g)
    ensures SafeValidMask(bands, maskValue).Failure? ==>
              ValidMaskOf(bands, maskValue).Failure?
              && SafeValidMask(bands, maskValue).error == ValidMaskOf(bands, maskValue).error
              && !SafeValidMask(bands, maskValue).error.IsIOError()
  {
  }

  /** One band with mask value 2 (binary 10) over the samples 0, 2, 3 and 6: only the
      first sample lacks bit 1. */
  lemma MaskValueTwoExample()
    ensures ValidMaskOf([Success(Grid(1, 4, [0, 2, 3, 6]))], Some(2)) == Success(Grid(1, 4, [false, true, true, true]))
  {
    assert BitAnd(0, 2) == 0;
    assert BitAnd(1, 1) == 1;
    assert BitAnd(2, 2) == 2 by { assert BitAnd(1, 1) == 1; }
    assert BitAnd(3, 2) == 2 by { assert BitAnd(1, 1) == 1; }
    assert BitAnd(6, 2) == 2 by { assert BitAnd(3, 1) == 1; }
    var cells := BandMask(Grid(1, 4, [0, 2, 3, 6]), Some(2));
    assert cells == [false, true, true, true];
  }
}
