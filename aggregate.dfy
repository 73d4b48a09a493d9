/**
 * The tolerant column aggregators as functions of their arguments: which
 * cells of a column contribute a number, and what SUM, AVG, MIN, MAX and
 * COUNT make of the column. The loops that compute them are in Engine.
 */
module Aggregate {
  import opened Wrappers
  import opened Text

  /** Why an aggregator refused its arguments. */
  datatype AggError =
    | NullPointer        // the column name or the values pointer is null
    | InvalidColumnName  // the column name is not UTF-8
    | NoNumericValues    // no cell of the column holds a number

  /** The error text handed back to the host. */
  function AggMessage(e: AggError): string
  {
    match e
    case NullPointer => "Null pointer provided"
    case InvalidColumnName => "Invalid column name encoding"
    case NoNumericValues => "No numeric values found in column"
  }

  /**
   * The number parser applied to trimmed, non-blank cell text. It stands for
   * the host language's floating-point parser, whose grammar and rounding are
   * not part of this model.
   */
  type NumberParser = string -> Option<real>

  /**
   * The checks every aggregator runs before it looks at a cell: both pointers
   * first, then the encoding of the column name, which is otherwise unused.
   */
  function CheckArguments(columnName: RawText, values: Option<seq<RawText>>): (r: Result<seq<RawText>, AggError>)
    ensures r.Success? <==> columnName.Utf8? && values.Some?
    ensures r.Success? ==> r.value == values.value
  {
    if columnName.NullPtr? || values.None? then Failure(NullPointer)
    else if columnName.BadUtf8? then Failure(InvalidColumnName)
    else Success(values.value)
  }

  /**
   * The number a cell contributes to SUM, AVG, MIN and MAX. The cell is
   * skipped, in this order, when it is null, when it is not UTF-8, when it
   * is blank once trimmed, and when its trimmed text is not a number.
   */
  function Coerce(cell: RawText, parse: NumberParser): (r: Option<real>)
  {
    match cell
    case NullPtr => None
    case BadUtf8 => None
    case Utf8(s) =>
      var t := Trim(s);
      if t == [] then None else parse(t)
  }

  /** What COUNT counts: a cell that is UTF-8 and not blank once trimmed, numeric or not. */
  predicate HasContent(cell: RawText)
  {
    cell.Utf8? && Trim(cell.text) != []
  }

  /** What one cell adds to COUNT: 1 for a cell with content, 0 otherwise. */
  function Counted(cell: RawText): nat
  {
    if HasContent(cell) then 1 else 0
  }

  /** The number a cell contributes, as a sequence of zero or one elements. */
  function Contribution(cell: RawText, parse: NumberParser): seq<real>
  {
    match Coerce(cell, parse)
    case None => []
    case Some(x) => [x]
  }

  /** The numbers the cells of `col` contribute, in column order. */
  function Numbers(col: seq<RawText>, parse: NumberParser): (ns: seq<real>)
    ensures |ns| <= |col|
  {
    if col == [] then []
    else Numbers(col[..|col| - 1], parse) + Contribution(col[|col| - 1], parse)
  }

  /** How many cells of `col` have content. */
  function ContentCount(col: seq<RawText>): (n: nat)
    ensures n <= |col|
  {
    if col == [] then 0
    else ContentCount(col[..|col| - 1]) + Counted(col[|col| - 1])
  }

  /** The running sum, added up from the first number to the last. */
  function Total(xs: seq<real>): real
  {
    if xs == [] then 0.0 else Total(xs[..|xs| - 1]) + xs[|xs| - 1]
  }

  /** The smaller of the running minimum and a new number. */
  function Smaller(a: real, b: real): real
  {
    if b < a then b else a
  }

  /** The larger of the running maximum and a new number. */
  function Larger(a: real, b: real): real
  {
    if b > a then b else a
  }

  /** The running minimum over `xs`: one of its numbers, and no larger than any of them. */
  function Least(xs: seq<real>): (m: real)
    requires xs != []
    ensures m in xs
    ensures forall x :: x in xs ==> m <= x
  {
    if |xs| == 1 then xs[0]
    else
      var init := xs[..|xs| - 1];
      assert xs == init + [xs[|xs| - 1]];
      Smaller(Least(init), xs[|xs| - 1])
  }

  /** The running maximum over `xs`: one of its numbers, and no smaller than any of them. */
  function Greatest(xs: seq<real>): (m: real)
    requires xs != []
    ensures m in xs
    ensures forall x :: x in xs ==> x <= m
  {
    if |xs| == 1 then xs[0]
    else
      var init := xs[..|xs| - 1];
      assert xs == init + [xs[|xs| - 1]];
      Larger(Greatest(init), xs[|xs| - 1])
  }

  /** SUM: the total of the contributing numbers, or an error when there are none. */
  function SumOf(columnName: RawText, values: Option<seq<RawText>>, parse: NumberParser): Result<real, AggError>
  {
    match CheckArguments(columnName, values)
    case Failure(e) => Failure(e)
    case Success(col) =>
      var ns := Numbers(col, parse);
      if |ns| == 0 then Failure(NoNumericValues) else Success(Total(ns))
  }

  /** AVG: the total of the contributing numbers over how many there are, or an error when there are none. */
  function AvgOf(columnName: RawText, values: Option<seq<RawText>>, parse: NumberParser): Result<real, AggError>
  {
    match CheckArguments(columnName, values)
    case Failure(e) => Failure(e)
    case Success(col) =>
      var ns := Numbers(col, parse);
      if |ns| == 0 then Failure(NoNumericValues) else Success(Total(ns) / (|ns| as real))
  }

  /** MIN: the least contributing number, or an error when there are none. */
  function MinOf(columnName: RawText, values: Option<seq<RawText>>, parse: NumberParser): Result<real, AggError>
  {
    match CheckArguments(columnName, values)
    case Failure(e) => Failure(e)
    case Success(col) =>
      var ns := Numbers(col, parse);
      if |ns| == 0 then Failure(NoNumericValues) else Success(Least(ns))
  }

  /** MAX: the greatest contributing number, or an error when there are none. */
  function MaxOf(columnName: RawText, values: Option<seq<RawText>>, parse: NumberParser): Result<real, AggError>
  {
    match CheckArguments(columnName, values)
    case Failure(e) => Failure(e)
    case Success(col) =>
      var ns := Numbers(col, parse);
      if |ns| == 0 then Failure(NoNumericValues) else Success(Greatest(ns))
  }

  /** COUNT: how many cells have content; it fails only on its arguments. */
  function CountOf(columnName: RawText, values: Option<seq<RawText>>): Result<real, AggError>
  {
    match CheckArguments(columnName, values)
    case Failure(e) => Failure(e)
    case Success(col) => Success(ContentCount(col) as real)
  }

  /** Appending a cell appends exactly its contribution: the cells are taken in column order. */
  lemma NumbersSnoc(col: seq<RawText>, cell: RawText, parse: NumberParser)
    ensures Numbers(col + [cell], parse) == Numbers(col, parse) + Contribution(cell, parse)
  {
    assert (col + [cell])[..|col|] == col;
  }

  /** One more cell of the column contributes its number, if any, after those of the cells before it. */
  lemma NumbersStep(col: seq<RawText>, i: nat, parse: NumberParser)
    requires i < |col|
    ensures Coerce(col[i], parse).None? ==> Numbers(col[..i + 1], parse) == Numbers(col[..i], parse)
    ensures Coerce(col[i], parse).Some? ==>
      Numbers(col[..i + 1], parse) == Numbers(col[..i], parse) + [Coerce(col[i], parse).value]
  {
    assert col[..i + 1][..i] == col[..i];
    assert Numbers(col[..i], parse) + [] == Numbers(col[..i], parse);
  }

  /** One more cell of the column adds one to the count exactly when it has content. */
  lemma ContentCountStep(col: seq<RawText>, i: nat)
    requires i < |col|
    ensures ContentCount(col[..i + 1]) == ContentCount(col[..i]) + Counted(col[i])
  {
    assert col[..i + 1][..i] == col[..i];
  }

  /** The running sum after one more number. */
  lemma TotalSnoc(xs: seq<real>, x: real)
    ensures Total(xs + [x]) == Total(xs) + x
  {
    assert (xs + [x])[..|xs|] == xs;
  }

  /** The running minimum and maximum after one more number. */
  lemma LeastGreatestSnoc(xs: seq<real>, x: real)
    ensures xs == [] ==> Least(xs + [x]) == x && Greatest(xs + [x]) == x
    ensures xs != [] ==> Least(xs + [x]) == Smaller(Least(xs), x) && Greatest(xs + [x]) == Larger(Greatest(xs), x)
  {
    assert (xs + [x])[..|xs|] == xs;
  }

  /** Appending a cell adds one to the count exactly when the cell has content. */
  lemma ContentCountSnoc(col: seq<RawText>, cell: RawText)
    ensures ContentCount(col + [cell]) == ContentCount(col) + Counted(cell)
  {
    assert (col + [cell])[..|col|] == col;
  }

  /** The numbers of two columns laid end to end are those of the first column, then those of the second. */
  lemma {:induction false} NumbersConcat(a: seq<RawText>, b: seq<RawText>, parse: NumberParser)
    ensures Numbers(a + b, parse) == Numbers(a, parse) + Numbers(b, parse)
  {
    if b == [] {
      assert a + b == a;
    } else {
      var init, last := b[..|b| - 1], b[|b| - 1];
      assert b == init + [last];
      NumbersConcat(a, init, parse);
      NumbersConcatStep(a, init, last, parse);
    }
  }

  /** The inductive step of NumbersConcat: one more cell at the end of the second column. */
  lemma NumbersConcatStep(a: seq<RawText>, init: seq<RawText>, last: RawText, parse: NumberParser)
    requires Numbers(a + init, parse) == Numbers(a, parse) + Numbers(init, parse)
    ensures Numbers(a + (init + [last]), parse) == Numbers(a, parse) + Numbers(init + [last], parse)
  {
    var na, ni, c := Numbers(a, parse), Numbers(init, parse), Contribution(last, parse);
    calc {
      Numbers(a + (init + [last]), parse);
    == { assert a + (init + [last]) == (a + init) + [last]; }
      Numbers((a + init) + [last], parse);
    == { NumbersSnoc(a + init, last, parse); }
      (na + ni) + c;
    ==
      na + (ni + c);
    == { NumbersSnoc(init, last, parse); }
      na + Numbers(init + [last], parse);
    }
  }


  /** The cells with content in two columns laid end to end are those of each column, added up. */
  lemma {:induction false} ContentCountConcat(a: seq<RawText>, b: seq<RawText>)
    ensures ContentCount(a + b) == ContentCount(a) + ContentCount(b)
  {
    if b == [] {
      assert a + b == a;
    } else {
      var init := b[..|b| - 1];
      ContentCountConcat(a, init);
      var ab := a + b;
      assert ab[..|ab| - 1] == a + init && ab[|ab| - 1] == b[|b| - 1];
    }
  }

  /** A number is contributed exactly when some cell coerces to it. */
  lemma {:induction false} NumbersMembership(col: seq<RawText>, parse: NumberParser, x: real)
    ensures x in Numbers(col, parse) <==> exists k :: 0 <= k < |col| && Coerce(col[k], parse) == Some(x)
  {
    if col != [] {
      var init, last := col[..|col| - 1], col[|col| - 1];
      NumbersMembership(init, parse, x);
      assert x in Numbers(col, parse) <==> x in Numbers(init, parse) || x in Contribution(last, parse);
      assert x in Contribution(last, parse) <==> Coerce(last, parse) == Some(x);
      if x in Numbers(init, parse) {
        var k :| 0 <= k < |init| && Coerce(init[k], parse) == Some(x);
        assert col[k] == init[k];
      }
      if exists k :: 0 <= k < |col| && Coerce(col[k], parse) == Some(x) {
        var k :| 0 <= k < |col| && Coerce(col[k], parse) == Some(x);
        if k < |init| {
          assert Coerce(init[k], parse) == Some(x);
        }
      }
    }
  }

  /** No number is contributed exactly when every cell is skipped. */
  lemma NumbersEmptyIff(col: seq<RawText>, parse: NumberParser)
    ensures Numbers(col, parse) == [] <==> forall k :: 0 <= k < |col| ==> Coerce(col[k], parse).None?
  {
    if Numbers(col, parse) != [] {
      NumbersMembership(col, parse, Numbers(col, parse)[0]);
    } else {
      forall k | 0 <= k < |col|
        ensures Coerce(col[k], parse).None?
      {
        if Coerce(col[k], parse).Some? {
          NumbersMembership(col, parse, Coerce(col[k], parse).value);
        }
      }
    }
  }

  /** Every cell that contributes a number has content, so COUNT never counts fewer cells than SUM adds up. */
  lemma {:induction false} NumbersWithinContent(col: seq<RawText>, parse: NumberParser)
    ensures |Numbers(col, parse)| <= ContentCount(col) <= |col|
  {
    if col != [] {
      NumbersWithinContent(col[..|col| - 1], parse);
    }
  }

  /** The sum of two sequences laid end to end is the sum of their sums. */
  lemma {:induction false} TotalConcat(xs: seq<real>, ys: seq<real>)
    ensures Total(xs + ys) == Total(xs) + Total(ys)
  {
    if ys == [] {
      assert xs + ys == xs;
    } else {
      var init := ys[..|ys| - 1];
      TotalConcat(xs, init);
      var xys := xs + ys;
      assert xys[..|xys| - 1] == xs + init && xys[|xys| - 1] == ys[|ys| - 1];
    }
  }

  /** Bounds on every number bound the total: `lo * n <= Total(xs) <= hi * n`. */
  lemma {:induction false} TotalBetween(xs: seq<real>, lo: real, hi: real)
    requires forall x :: x in xs ==> lo <= x <= hi
    ensures lo * (|xs| as real) <= Total(xs) <= hi * (|xs| as real)
  {
    if xs != [] {
      var init := xs[..|xs| - 1];
      assert forall x :: x in init ==> x in xs;
      TotalBetween(init, lo, hi);
      var last, m := xs[|xs| - 1], |init| as real;
      assert last in xs;
      assert Total(xs) == Total(init) + last;
      assert |xs| as real == m + 1.0;
      BoundsStep(lo, hi, m, Total(init), last);
    }
  }

  /** Adding one more number between `lo` and `hi` keeps a total of `m` such numbers within bounds. */
  lemma BoundsStep(lo: real, hi: real, m: real, t: real, x: real)
    requires lo * m <= t <= hi * m && lo <= x <= hi
    ensures lo * (m + 1.0) <= t + x <= hi * (m + 1.0)
  {
    assert lo * (m + 1.0) == lo * m + lo;
    assert hi * (m + 1.0) == hi * m + hi;
  }

  /** Every cell of `col` is skipped by SUM, AVG, MIN and MAX. */
  predicate NothingContributes(col: seq<RawText>, parse: NumberParser)
  {
    forall k :: 0 <= k < |col| ==> Coerce(col[k], parse).None?
  }

  /**
   * The arguments are checked before any cell is looked at, null pointers
   * before the name's encoding, and the same way by all five aggregators.
   */
  lemma ArgumentErrorsComeFirst(columnName: RawText, values: Option<seq<RawText>>, parse: NumberParser)
    ensures columnName.NullPtr? || values.None? ==>
      && SumOf(columnName, values, parse) == Failure(NullPointer)
      && AvgOf(columnName, values, parse) == Failure(NullPointer)
      && MinOf(columnName, values, parse) == Failure(NullPointer)
      && MaxOf(columnName, values, parse) == Failure(NullPointer)
      && CountOf(columnName, values) == Failure(NullPointer)
    ensures columnName.BadUtf8? && values.Some? ==>
      && SumOf(columnName, values, parse) == Failure(InvalidColumnName)
      && AvgOf(columnName, values, parse) == Failure(InvalidColumnName)
      && MinOf(columnName, values, parse) == Failure(InvalidColumnName)
      && MaxOf(columnName, values, parse) == Failure(InvalidColumnName)
      && CountOf(columnName, values) == Failure(InvalidColumnName)
  {
  }

  /** With valid arguments, SUM, AVG, MIN and MAX fail exactly when no cell contributes, and then all four fail. */
  lemma NumericFailsIffNothingContributes(columnName: RawText, col: seq<RawText>, parse: NumberParser)
    requires columnName.Utf8?
    ensures SumOf(columnName, Some(col), parse) == Failure(NoNumericValues) <==> NothingContributes(col, parse)
    ensures AvgOf(columnName, Some(col), parse) == Failure(NoNumericValues) <==> NothingContributes(col, parse)
    ensures MinOf(columnName, Some(col), parse) == Failure(NoNumericValues) <==> NothingContributes(col, parse)
    ensures MaxOf(columnName, Some(col), parse) == Failure(NoNumericValues) <==> NothingContributes(col, parse)
    ensures SumOf(columnName, Some(col), parse).Success? <==> !NothingContributes(col, parse)
  {
    NumbersEmptyIff(col, parse);
  }

  /**
   * COUNT fails only on its arguments; otherwise it counts at least every
   * cell that SUM adds up, whatever the number parser, and at most every cell.
   */
  lemma CountFailsOnlyOnArguments(columnName: RawText, values: Option<seq<RawText>>, parse: NumberParser)
    ensures CountOf(columnName, values).Failure? <==> CheckArguments(columnName, values).Failure?
    ensures CountOf(columnName, values).Success? ==>
      |Numbers(values.value, parse)| as real <= CountOf(columnName, values).value <= |values.value| as real
  {
    if values.Some? {
      NumbersWithinContent(values.value, parse);
    }
  }

  /** A column whose cells all have content counts every cell. */
  lemma {:induction false} ContentCountFull(col: seq<RawText>)
    requires forall k :: 0 <= k < |col| ==> HasContent(col[k])
    ensures ContentCount(col) == |col|
  {
    if col != [] {
      var init := col[..|col| - 1];
      assert forall k :: 0 <= k < |init| ==> init[k] == col[k];
      ContentCountFull(init);
    }
  }

  /**
   * The asymmetry between COUNT and the numeric aggregators: a column of
   * text that is not blank but not a number either makes SUM fail, yet
   * COUNT counts every one of its cells.
   */
  lemma TextCountedButNotSummed(columnName: RawText, col: seq<RawText>, parse: NumberParser)
    requires columnName.Utf8?
    requires forall k :: 0 <= k < |col| ==> HasContent(col[k]) && Coerce(col[k], parse).None?
    ensures SumOf(columnName, Some(col), parse) == Failure(NoNumericValues)
    ensures CountOf(columnName, Some(col)) == Success(|col| as real)
  {
    NumbersEmptyIff(col, parse);
    ContentCountFull(col);
  }

  /** MIN returns the number of some cell, and no contributing cell holds a smaller one. */
  lemma MinIsContributingLowerBound(columnName: RawText, col: seq<RawText>, parse: NumberParser)
    requires MinOf(columnName, Some(col), parse).Success?
    ensures exists k :: 0 <= k < |col| && Coerce(col[k], parse) == Some(MinOf(columnName, Some(col), parse).value)
    ensures forall k :: 0 <= k < |col| && Coerce(col[k], parse).Some? ==>
      MinOf(columnName, Some(col), parse).value <= Coerce(col[k], parse).value
  {
    var m := MinOf(columnName, Some(col), parse).value;
    NumbersMembership(col, parse, m);
    forall k | 0 <= k < |col| && Coerce(col[k], parse).Some?
      ensures m <= Coerce(col[k], parse).value
    {
      NumbersMembership(col, parse, Coerce(col[k], parse).value);
    }
  }

  /** MAX returns the number of some cell, and no contributing cell holds a larger one. */
  lemma MaxIsContributingUpperBound(columnName: RawText, col: seq<RawText>, parse: NumberParser)
    requires MaxOf(columnName, Some(col), parse).Success?
    ensures exists k :: 0 <= k < |col| && Coerce(col[k], parse) == Some(MaxOf(columnName, Some(col), parse).value)
    ensures forall k :: 0 <= k < |col| && Coerce(col[k], parse).Some? ==>
      Coerce(col[k], parse).value <= MaxOf(columnName, Some(col), parse).value
  {
    var m := MaxOf(columnName, Some(col), parse).value;
    NumbersMembership(col, parse, m);
    forall k | 0 <= k < |col| && Coerce(col[k], parse).Some?
      ensures Coerce(col[k], parse).value <= m
    {
      NumbersMembership(col, parse, Coerce(col[k], parse).value);
    }
  }

  /** Dividing a total by a positive count and multiplying back gives the total. */
  lemma MeanTimesCount(t: real, n: real)
    requires n > 0.0
    ensures (t / n) * n == t
  {
  }

  /** A total between `lo * n` and `hi * n` has its mean between `lo` and `hi`. */
  lemma MeanBetween(t: real, n: real, lo: real, hi: real)
    requires n > 0.0 && lo * n <= t <= hi * n
    ensures lo <= t / n <= hi
  {
    MeanTimesCount(t, n);
  }

  /** Bounds on every number bound their mean. */
  lemma MeanWithinBounds(xs: seq<real>, lo: real, hi: real)
    requires xs != [] && forall x :: x in xs ==> lo <= x <= hi
    ensures lo <= Total(xs) / (|xs| as real) <= hi
  {
    var t, n := Total(xs), |xs| as real;
    assert lo * n <= t <= hi * n by {
      TotalBetween(xs, lo, hi);
    }
    MeanBetween(t, n, lo, hi);
  }

  /**
   * AVG divides SUM by the number of contributing cells, not by the length
   * of the column, and succeeds exactly when SUM does.
   */
  lemma AvgIsSumOverContributing(columnName: RawText, col: seq<RawText>, parse: NumberParser)
    ensures AvgOf(columnName, Some(col), parse).Success? <==> SumOf(columnName, Some(col), parse).Success?
    ensures AvgOf(columnName, Some(col), parse).Success? ==>
      && |Numbers(col, parse)| > 0
      && AvgOf(columnName, Some(col), parse).value
        == SumOf(columnName, Some(col), parse).value / (|Numbers(col, parse)| as real)
  {
    var ns := Numbers(col, parse);
    if columnName.Utf8? && ns != [] {
      var t, n := Total(ns), |ns| as real;
      assert AvgOf(columnName, Some(col), parse) == Success(t / n);
      assert SumOf(columnName, Some(col), parse) == Success(t);
    } else {
      assert AvgOf(columnName, Some(col), parse).Failure?;
    }
  }

  /** AVG lies between MIN and MAX. */
  lemma AvgBetweenMinAndMax(columnName: RawText, col: seq<RawText>, parse: NumberParser)
    requires AvgOf(columnName, Some(col), parse).Success?
    ensures MinOf(columnName, Some(col), parse).value <= AvgOf(columnName, Some(col), parse).value
    ensures AvgOf(columnName, Some(col), parse).value <= MaxOf(columnName, Some(col), parse).value
  {
    var ns := Numbers(col, parse);
    var t, n, lo, hi := Total(ns), |ns| as real, Least(ns), Greatest(ns);
    assert AvgOf(columnName, Some(col), parse) == Success(t / n);
    assert MinOf(columnName, Some(col), parse) == Success(lo);
    assert MaxOf(columnName, Some(col), parse) == Success(hi);
    MeanWithinBounds(ns, lo, hi);
  }

  /** Columns that contribute the same numbers give the same SUM, AVG, MIN and MAX. */
  lemma SameNumbersSameResults(columnName: RawText, c1: seq<RawText>, c2: seq<RawText>, parse: NumberParser)
    requires Numbers(c1, parse) == Numbers(c2, parse)
    ensures SumOf(columnName, Some(c1), parse) == SumOf(columnName, Some(c2), parse)
    ensures AvgOf(columnName, Some(c1), parse) == AvgOf(columnName, Some(c2), parse)
    ensures MinOf(columnName, Some(c1), parse) == MinOf(columnName, Some(c2), parse)
    ensures MaxOf(columnName, Some(c1), parse) == MaxOf(columnName, Some(c2), parse)
  {
  }

  /** A cell that contributes no number changes none of SUM, AVG, MIN and MAX, wherever it sits. */
  lemma SkippedCellChangesNothing(columnName: RawText, a: seq<RawText>, cell: RawText, b: seq<RawText>, parse: NumberParser)
    requires Coerce(cell, parse).None?
    ensures SumOf(columnName, Some(a + [cell] + b), parse) == SumOf(columnName, Some(a + b), parse)
    ensures AvgOf(columnName, Some(a + [cell] + b), parse) == AvgOf(columnName, Some(a + b), parse)
    ensures MinOf(columnName, Some(a + [cell] + b), parse) == MinOf(columnName, Some(a + b), parse)
    ensures MaxOf(columnName, Some(a + [cell] + b), parse) == MaxOf(columnName, Some(a + b), parse)
  {
    var c1, c2 := a + [cell] + b, a + b;
    assert Numbers(c1, parse) == Numbers(c2, parse) by {
      NumbersConcat(a + [cell], b, parse);
      NumbersSnoc(a, cell, parse);
      NumbersConcat(a, b, parse);
    }
    SameNumbersSameResults(columnName, c1, c2, parse);
  }

  /** A cell without content (null, not UTF-8 or blank) does not change COUNT, wherever it sits. */
  lemma EmptyCellNotCounted(columnName: RawText, a: seq<RawText>, cell: RawText, b: seq<RawText>)
    requires !HasContent(cell)
    ensures CountOf(columnName, Some(a + [cell] + b)) == CountOf(columnName, Some(a + b))
  {
    assert ContentCount(a + [cell] + b) == ContentCount(a + b) by {
      ContentCountConcat(a + [cell], b);
      ContentCountSnoc(a, cell);
      ContentCountConcat(a, b);
    }
  }

  /** A successful SUM has a valid column name, some numbers, and their total as its value. */
  lemma SumIsTotal(columnName: RawText, col: seq<RawText>, parse: NumberParser)
    requires SumOf(columnName, Some(col), parse).Success?
    ensures columnName.Utf8? && |Numbers(col, parse)| > 0
    ensures SumOf(columnName, Some(col), parse).value == Total(Numbers(col, parse))
  {
  }

  /** With a valid column name and some numbers, SUM succeeds with their total. */
  lemma TotalIsSum(columnName: RawText, col: seq<RawText>, parse: NumberParser, x: real)
    requires columnName.Utf8? && |Numbers(col, parse)| > 0 && Total(Numbers(col, parse)) == x
    ensures SumOf(columnName, Some(col), parse) == Success(x)
  {
  }

  /** The numbers of two joined columns add up to the totals of each, and there are as many as in both. */
  lemma TotalOfNumbersConcat(a: seq<RawText>, b: seq<RawText>, parse: NumberParser)
    ensures Total(Numbers(a + b, parse)) == Total(Numbers(a, parse)) + Total(Numbers(b, parse))
    ensures |Numbers(a + b, parse)| == |Numbers(a, parse)| + |Numbers(b, parse)|
  {
    NumbersConcat(a, b, parse);
    TotalConcat(Numbers(a, parse), Numbers(b, parse));
  }

  /** SUM of two columns laid end to end adds up the SUM of each column. */
  lemma SumAdds(columnName: RawText, a: seq<RawText>, b: seq<RawText>, parse: NumberParser)
    requires SumOf(columnName, Some(a), parse).Success? && SumOf(columnName, Some(b), parse).Success?
    ensures SumOf(columnName, Some(a + b), parse)
      == Success(SumOf(columnName, Some(a), parse).value + SumOf(columnName, Some(b), parse).value)
  {
    SumIsTotal(columnName, a, parse);
    SumIsTotal(columnName, b, parse);
    TotalOfNumbersConcat(a, b, parse);
    var sum := SumOf(columnName, Some(a), parse).value + SumOf(columnName, Some(b), parse).value;
    TotalIsSum(columnName, a + b, parse, sum);
  }

  /** COUNT of two columns laid end to end adds up the COUNT of each column. */
  lemma CountAdds(columnName: RawText, a: seq<RawText>, b: seq<RawText>)
    requires CountOf(columnName, Some(a)).Success?
    ensures CountOf(columnName, Some(a + b))
      == Success(CountOf(columnName, Some(a)).value + CountOf(columnName, Some(b)).value)
  {
    ContentCountConcat(a, b);
  }

  // The examples below fix their column as a literal through `requires` and
  // take it apart cell by cell with small helper lemmas. This only keeps the
  // proofs cheap; each example states what the aggregator returns on that column.

  /** The numbers of a three-cell column are the contributions of its cells, in order. */
  lemma NumbersOfThree(c1: RawText, c2: RawText, c3: RawText, parse: NumberParser)
    ensures Numbers([c1, c2, c3], parse) == Contribution(c1, parse) + Contribution(c2, parse) + Contribution(c3, parse)
  {
    var one, two, three := [c1], [c1, c2], [c1, c2, c3];
    assert one[..0] == [] && two[..1] == one && three[..2] == two;
    assert Numbers(one, parse) == Contribution(c1, parse);
    assert Numbers(two, parse) == Contribution(c1, parse) + Contribution(c2, parse);
  }

  /** The total of three numbers, added up in order. */
  lemma TotalOfThree(x: real, y: real, z: real)
    ensures Total([x, y, z]) == x + y + z
  {
    assert [x][..0] == [];
    assert Total([x]) == x;
    assert [x, y][..1] == [x];
    assert Total([x, y]) == x + y;
    assert [x, y, z][..2] == [x, y];
  }

  /** A cell holding the text of a number, without surrounding spaces, contributes that number. */
  lemma NumeralContributes(s: string, x: real, parse: NumberParser)
    requires s != [] && !IsWhitespace(s[0]) && !IsWhitespace(s[|s| - 1]) && parse(s) == Some(x)
    ensures Contribution(Utf8(s), parse) == [x] && HasContent(Utf8(s))
  {
    TrimOfTrimmed(s);
  }

  /** The source's tests for SUM and AVG: 10, 20 and 30 add up to 60 and average 20. */
  lemma ExampleSumAndAvg(col: seq<RawText>, parse: NumberParser)
    requires col == [Utf8("10"), Utf8("20"), Utf8("30")]
    requires parse("10") == Some(10.0) && parse("20") == Some(20.0) && parse("30") == Some(30.0)
    ensures SumOf(Utf8("Test"), Some(col), parse) == Success(60.0)
    ensures AvgOf(Utf8("Test"), Some(col), parse) == Success(20.0)
  {
    var c1, c2, c3 := col[0], col[1], col[2];
    assert col == [c1, c2, c3];
    NumeralContributes("10", 10.0, parse);
    NumeralContributes("20", 20.0, parse);
    NumeralContributes("30", 30.0, parse);
    NumbersOfThree(c1, c2, c3, parse);
    var ns := Numbers(col, parse);
    assert ns == [10.0, 20.0, 30.0];
    TotalOfThree(10.0, 20.0, 30.0);
    assert Total(ns) == 60.0;
  }

  /** The source's tests for MIN and MAX: of 10, 20 and 5 the least is 5 and the greatest 20. */
  lemma ExampleMinAndMax(col: seq<RawText>, parse: NumberParser)
    requires col == [Utf8("10"), Utf8("20"), Utf8("5")]
    requires parse("10") == Some(10.0) && parse("20") == Some(20.0) && parse("5") == Some(5.0)
    ensures MinOf(Utf8("Test"), Some(col), parse) == Success(5.0)
    ensures MaxOf(Utf8("Test"), Some(col), parse) == Success(20.0)
  {
    var c1, c2, c3 := col[0], col[1], col[2];
    assert col == [c1, c2, c3];
    NumeralContributes("10", 10.0, parse);
    NumeralContributes("20", 20.0, parse);
    NumeralContributes("5", 5.0, parse);
    NumbersOfThree(c1, c2, c3, parse);
    var ns := Numbers(col, parse);
    assert ns == [10.0, 20.0, 5.0];
    assert Least(ns) == 5.0 by {
      assert 5.0 in ns;
    }
    assert Greatest(ns) == 20.0 by {
      assert 20.0 in ns;
    }
  }

  /** The count of a four-cell column adds up its cells one by one. */
  lemma ContentCountOfFour(c1: RawText, c2: RawText, c3: RawText, c4: RawText)
    ensures ContentCount([c1, c2, c3, c4]) == Counted(c1) + Counted(c2) + Counted(c3) + Counted(c4)
  {
    var one, two, three, four := [c1], [c1, c2], [c1, c2, c3], [c1, c2, c3, c4];
    assert one[..0] == [] && two[..1] == one && three[..2] == two && four[..3] == three;
    assert ContentCount(one) == Counted(c1);
    assert ContentCount(two) == Counted(c1) + Counted(c2);
    assert ContentCount(three) == Counted(c1) + Counted(c2) + Counted(c3);
  }

  /** The source's test for COUNT: of "10", "", "30" and "40" three cells have content. */
  lemma ExampleCount(col: seq<RawText>)
    requires col == [Utf8("10"), Utf8(""), Utf8("30"), Utf8("40")]
    ensures CountOf(Utf8("Test"), Some(col)) == Success(3.0)
  {
    var c1, c2, c3, c4 := Utf8("10"), Utf8(""), Utf8("30"), Utf8("40");
    assert Counted(c1) == 1 && Counted(c2) == 0 && Counted(c3) == 1 && Counted(c4) == 1 by {
      TrimOfTrimmed("10");
      TrimOfTrimmed("30");
      TrimOfTrimmed("40");
    }
    ContentCountOfFour(c1, c2, c3, c4);
  }

  /** AVG divides by the cells that hold numbers: "10", "abc" and "20" average 15, not 10. */
  lemma ExampleAvgSkipsText(col: seq<RawText>, parse: NumberParser)
    requires col == [Utf8("10"), Utf8("abc"), Utf8("20")]
    requires parse("10") == Some(10.0) && parse("abc") == None && parse("20") == Some(20.0)
    ensures AvgOf(Utf8("Test"), Some(col), parse) == Success(15.0)
  {
    var c1, c2, c3 := col[0], col[1], col[2];
    assert col == [c1, c2, c3];
    NumeralContributes("10", 10.0, parse);
    NumeralContributes("20", 20.0, parse);
    assert Contribution(c2, parse) == [] by {
      TrimOfTrimmed("abc");
    }
    NumbersOfThree(c1, c2, c3, parse);
    var ns := Numbers(col, parse);
    assert ns == [10.0, 20.0];
    assert Total(ns) == 30.0 by {
      assert ns[..1] == [10.0] && [10.0][..0] == [];
    }
  }

  /** The count of a three-cell column adds up its cells one by one. */
  lemma ContentCountOfThree(c1: RawText, c2: RawText, c3: RawText)
    ensures ContentCount([c1, c2, c3]) == Counted(c1) + Counted(c2) + Counted(c3)
  {
    var one, two, three := [c1], [c1, c2], [c1, c2, c3];
    assert one[..0] == [] && two[..1] == one && three[..2] == two;
    assert ContentCount(one) == Counted(c1);
    assert ContentCount(two) == Counted(c1) + Counted(c2);
  }

  /** A blank cell and a word: neither holds a number, only the word has content. */
  lemma BlankAndWordPieces(blank: RawText, word: RawText, parse: NumberParser)
    requires blank == Utf8("") && word == Utf8("abc") && parse("abc") == None
    ensures Counted(blank) == 0 && Counted(word) == 1
    ensures Contribution(blank, parse) == [] && Contribution(word, parse) == []
  {
    TrimOfTrimmed("abc");
  }

  /**
   * The asymmetry on a column of a blank cell, a word and a null pointer:
   * SUM finds no number and fails, COUNT counts the word.
   */
  lemma ExampleTextOnly(col: seq<RawText>, parse: NumberParser)
    requires col == [Utf8(""), Utf8("abc"), NullPtr] && parse("abc") == None
    ensures SumOf(Utf8("Test"), Some(col), parse) == Failure(NoNumericValues)
    ensures CountOf(Utf8("Test"), Some(col)) == Success(1.0)
  {
    var c1, c2, c3 := col[0], col[1], col[2];
    assert col == [c1, c2, c3];
    BlankAndWordPieces(c1, c2, parse);
    NumbersOfThree(c1, c2, c3, parse);
    assert Numbers(col, parse) == [];
    ContentCountOfThree(c1, c2, c3);
    assert ContentCount(col) == 1;
  }
}
