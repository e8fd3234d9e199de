/**
 * The fixed predictions the calendar page highlights in place of data from
 * the server: six records shaped like the server's, one a month in 2025.
 */
module CalendarData {
  import opened Wrappers
  import opened CivilDates
  import opened JsDates
  import opened Calendar
  import opened Strings

  /** The six records the page passes to `getPredictedDateSet`. */
  const PlaceholderPredictions: Predictions := Items([
    Some(Prediction(Some(1), Some("2025-02-04"), None, Some(""))),
    Some(Prediction(Some(2), Some("2025-03-06"), None, Some(""))),
    Some(Prediction(Some(3), Some("2025-04-05"), None, Some(""))),
    Some(Prediction(Some(4), Some("2025-05-05"), None, Some(""))),
    Some(Prediction(Some(5), Some("2025-06-04"), None, Some(""))),
    Some(Prediction(Some(6), Some("2025-07-04"), None, Some("")))])

  /** The first placeholder record highlights 4 to 9 February 2025. */
  lemma PlaceholderFirstWindow()
    ensures RecordStart(PlaceholderPredictions.records[0]) == Some(DayNumber(2025, 2, 4))
  {
    var c: ValidDate := Date(2025, 2, 4);
    ComponentsOfKeyText(c);
    FirstKeyText();
    RecordStartOfComponents(PlaceholderPredictions.records[0], "2025-02-04", c);
  }

  lemma FirstKeyText()
    ensures IntToString(2025) + "-" + Pad2(2) + "-" + Pad2(4) == "2025-02-04"
  {
    assert NatToString(2) == "2";
    assert NatToString(20) == NatToString(2) + "0" == "20";
    assert NatToString(202) == NatToString(20) + "2" == "202";
    assert NatToString(2025) == NatToString(202) + "5" == "2025";
    assert Pad2(2) == "02" && Pad2(4) == "04";
  }
}
