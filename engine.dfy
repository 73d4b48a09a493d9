/**
 * The five aggregators as the loops that compute them: the argument checks,
 * then one pass over the column that skips a cell with `continue` as soon as
 * one of its checks fails and otherwise updates running accumulators. Each
 * method returns exactly what its specification in Aggregate says.
 */
module Engine {
  import opened Wrappers
  import opened Text
  import opened Aggregate

  /** SUM: adds up every number the cells hold; fails when there is none. */
  method Sum(columnName: RawText, values: Option<seq<RawText>>, parse: NumberParser) returns (r: Result<real, AggError>)
    ensures r == SumOf(columnName, values, parse)
  {
    if columnName.NullPtr? || values.None? {
      return Failure(NullPointer);
    }
    if columnName.BadUtf8? {
      return Failure(InvalidColumnName);
    }
    var col := values.value;
    var sum := 0.0;
    var parsedCount := 0;
    for i := 0 to |col|
      invariant sum == Total(Numbers(col[..i], parse))
      invariant parsedCount == |Numbers(col[..i], parse)|
    {
      ghost var ns := Numbers(col[..i], parse);
      NumbersStep(col, i, parse);
      if col[i].NullPtr? {
        continue;
      }
      if col[i].BadUtf8? {
        continue;
      }
      var valueStr := Trim(col[i].text);
      if valueStr == [] {
        continue;
      }
      match parse(valueStr)
      case None =>
        continue;
      case Some(num) =>
        TotalSnoc(ns, num);
        sum := sum + num;
        parsedCount := parsedCount + 1;
    }
    assert col[..|col|] == col;
    if parsedCount == 0 {
      return Failure(NoNumericValues);
    }
    return Success(sum);
  }

  /** AVG: the sum of the numbers the cells hold over how many there are; fails when there is none. */
  method Avg(columnName: RawText, values: Option<seq<RawText>>, parse: NumberParser) returns (r: Result<real, AggError>)
    ensures r == AvgOf(columnName, values, parse)
  {
    if columnName.NullPtr? || values.None? {
      return Failure(NullPointer);
    }
    if columnName.BadUtf8? {
      return Failure(InvalidColumnName);
    }
    var col := values.value;
    var sum := 0.0;
    var parsedCount := 0;
    for i := 0 to |col|
      invariant sum == Total(Numbers(col[..i], parse))
      invariant parsedCount == |Numbers(col[..i], parse)|
    {
      ghost var ns := Numbers(col[..i], parse);
      NumbersStep(col, i, parse);
      if col[i].NullPtr? {
        continue;
      }
      if col[i].BadUtf8? {
        continue;
      }
      var valueStr := Trim(col[i].text);
      if valueStr == [] {
        continue;
      }
      match parse(valueStr)
      case None =>
        continue;
      case Some(num) =>
        TotalSnoc(ns, num);
        sum := sum + num;
        parsedCount := parsedCount + 1;
    }
    assert col[..|col|] == col;
    if parsedCount == 0 {
      return Failure(NoNumericValues);
    }
    return Success(sum / (parsedCount as real));
  }

  /** MIN: the smallest number the cells hold; fails when there is none. */
  method Min(columnName: RawText, values: Option<seq<RawText>>, parse: NumberParser) returns (r: Result<real, AggError>)
    ensures r == MinOf(columnName, values, parse)
  {
    if columnName.NullPtr? || values.None? {
      return Failure(NullPointer);
    }
    if columnName.BadUtf8? {
      return Failure(InvalidColumnName);
    }
    var col := values.value;
    var minValue: Option<real> := None;
    for i := 0 to |col|
      invariant minValue.None? <==> Numbers(col[..i], parse) == []
      invariant minValue.Some? ==> minValue.value == Least(Numbers(col[..i], parse))
    {
      ghost var ns := Numbers(col[..i], parse);
      NumbersStep(col, i, parse);
      if col[i].NullPtr? {
        continue;
      }
      if col[i].BadUtf8? {
        continue;
      }
      var valueStr := Trim(col[i].text);
      if valueStr == [] {
        continue;
      }
      match parse(valueStr)
      case None =>
        continue;
      case Some(num) =>
        LeastGreatestSnoc(ns, num);
        minValue := Some(match minValue
          case Some(currentMin) => Smaller(currentMin, num)
          case None => num);
    }
    assert col[..|col|] == col;
    match minValue
    case Some(m) =>
      return Success(m);
    case None =>
      return Failure(NoNumericValues);
  }

  /** MAX: the largest number the cells hold; fails when there is none. */
  method Max(columnName: RawText, values: Option<seq<RawText>>, parse: NumberParser) returns (r: Result<real, AggError>)
    ensures r == MaxOf(columnName, values, parse)
  {
    if columnName.NullPtr? || values.None? {
      return Failure(NullPointer);
    }
    if columnName.BadUtf8? {
      return Failure(InvalidColumnName);
    }
    var col := values.value;
    var maxValue: Option<real> := None;
    for i := 0 to |col|
      invariant maxValue.None? <==> Numbers(col[..i], parse) == []
      invariant maxValue.Some? ==> maxValue.value == Greatest(Numbers(col[..i], parse))
    {
      ghost var ns := Numbers(col[..i], parse);
      NumbersStep(col, i, parse);
      if col[i].NullPtr? {
        continue;
      }
      if col[i].BadUtf8? {
        continue;
      }
      var valueStr := Trim(col[i].text);
      if valueStr == [] {
        continue;
      }
      match parse(valueStr)
      case None =>
        continue;
      case Some(num) =>
        LeastGreatestSnoc(ns, num);
        maxValue := Some(match maxValue
          case Some(currentMax) => Larger(currentMax, num)
          case None => num);
    }
    assert col[..|col|] == col;
    match maxValue
    case Some(m) =>
      return Success(m);
    case None =>
      return Failure(NoNumericValues);
  }

  /** COUNT: how many cells have content, numeric or not; fails only on its arguments. */
  method Count(columnName: RawText, values: Option<seq<RawText>>) returns (r: Result<real, AggError>)
    ensures r == CountOf(columnName, values)
  {
    if columnName.NullPtr? || values.None? {
      return Failure(NullPointer);
    }
    if columnName.BadUtf8? {
      return Failure(InvalidColumnName);
    }
    var col := values.value;
    var counted := 0;
    for i := 0 to |col|
      invariant counted == ContentCount(col[..i])
    {
      ContentCountStep(col, i);
      if col[i].NullPtr? {
        continue;
      }
      if col[i].BadUtf8? {
        continue;
      }
      var valueStr := Trim(col[i].text);
      if valueStr != [] {
        counted := counted + 1;
      }
    }
    assert col[..|col|] == col;
    return Success(counted as real);
  }
}
