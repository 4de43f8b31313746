/** The script's own copy of the daily aggregation (teste.py,
    preprocess_proposicao_simple), written out step by step as the script
    writes it. */
module Teste {
  import opened Wrappers
  import opened DailySeries

  /** Converts the date column, groups by day, sorts by day and adds the
      trailing mean: the same steps, in the same order, as the library
      version, and therefore the same result and the same failures on every
      table, column name and window. */
  function PreprocessSimple(df: Frame, dateCol: string, window: int): (r: Result<seq<Row>, Error>)
    ensures r == Preprocess(df, dateCol, window)
  {
    if dateCol !in df then Failure(KeyError(dateCol))
    else
      var converted := ToDatetime(df[dateCol]);
      if converted.Failure? then Failure(converted.error)
      else if window < 1 then Failure(WindowError(window))
      else
        var dailyCounts := GroupByDay(converted.value);
        var movingAvg := RollingMean(Counts(dailyCounts), window);
        Success(seq(|dailyCounts|, i requires 0 <= i < |dailyCounts| =>
          Row(dailyCounts[i].date, dailyCounts[i].count, movingAvg[i])))
  }
}
