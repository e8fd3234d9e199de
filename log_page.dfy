/** The log screen: the period-started button and the symptom form. */
module LogPage {
  import opened Wrappers
  import opened Api
  import Insights

  const MissingChoice: string := "Please choose both symptom and severity."

  /** A choice in one of the form's selects: the submitted value and the shown caption. */
  datatype Choice = Choice(value: string, caption: string)

  /** The symptom select, starting with its empty 'Select…' entry. */
  const SymptomOptions: seq<Choice> := [
    Choice("", "Choose a symptom…"), Choice("Cramps", "Cramps"), Choice("Headache", "Headache"),
    Choice("Mood", "Mood"), Choice("Fatigue", "Fatigue"), Choice("Bloating", "Bloating"),
    Choice("Acne", "Acne"), Choice("Back pain", "Back pain"),
    Choice("Breast tenderness", "Breast tenderness"), Choice("Nausea", "Nausea"),
    Choice("Anxiety", "Anxiety"), Choice("Insomnia", "Insomnia"), Choice("Other", "Other")
  ]

  /** The severity select. */
  const SeverityOptions: seq<Choice> := [
    Choice("1", "Mild"), Choice("2", "Moderate"), Choice("3", "Moderate–strong"),
    Choice("4", "Strong"), Choice("5", "Very strong")
  ]

  /** The body of `POST /logger`. */
  datatype SymptomEntry = SymptomEntry(symptomname: string, severity: string)

  class LogForm {
    var periodStatus: Option<string>
    var periodError: Option<string>
    var symptomName: string
    var severity: string
    var symptomStatus: Option<string>
    var symptomError: Option<string>

    constructor ()
      ensures periodStatus == None && periodError == None
      ensures symptomName == "" && severity == ""
      ensures symptomStatus == None && symptomError == None
    {
      periodStatus, periodError := None, None;
      symptomName, severity := "", "";
      symptomStatus, symptomError := None, None;
    }

    /** Exactly one message shows for a section: its status or its error. */
    predicate OneMessage(status: Option<string>, error: Option<string>) {
      status.Some? != error.Some?
    }

    /**
     * `handlePeriodClick`: `PUT /update-period`; the reply's message or
     * 'Cycle updated.' on success, the error text or 'Failed to update.' on
     * failure. `outcome` carries the reply's `message` field when there is one.
     */
    method HandlePeriodClick(outcome: Response<Option<string>>)
      modifies this
      ensures outcome.Ok? ==> periodStatus == Some(outcome.data.GetOr("Cycle updated.")) && periodError == None
      ensures outcome.Err? ==> periodError == Some(ErrorText(outcome.error, "Failed to update.")) && periodStatus == None
      ensures OneMessage(periodStatus, periodError)
      ensures symptomName == old(symptomName) && severity == old(severity)
      ensures symptomStatus == old(symptomStatus) && symptomError == old(symptomError)
    {
      periodError := None;
      periodStatus := None;
      match outcome {
        case Ok(message) =>
          periodStatus := Some(message.GetOr("Cycle updated."));
        case Err(e) =>
          periodError := Some(ErrorText(e, "Failed to update."));
      }
    }

    /**
     * `handleSymptomSubmit`: both choices are needed before anything is sent;
     * a logged entry resets the form, a failed one keeps the choices.
     * `outcome` is how `POST /logger` ends when it is made.
     */
    method HandleSymptomSubmit(outcome: Response<()>) returns (request: Option<SymptomEntry>)
      modifies this
      ensures old(symptomName) == "" || old(severity) == "" <==> request == None
      ensures request == None ==>
        symptomError == Some(MissingChoice) && symptomStatus == None
        && symptomName == old(symptomName) && severity == old(severity)
      ensures request.Some? ==> request.value == SymptomEntry(old(symptomName), old(severity))
      ensures request.Some? && outcome.Ok? ==>
        symptomStatus == Some("Logged successfully.") && symptomError == None
        && symptomName == "" && severity == ""
      ensures request.Some? && outcome.Err? ==>
        symptomError == Some(ErrorText(outcome.error, "Something went wrong.")) && symptomStatus == None
        && symptomName == old(symptomName) && severity == old(severity)
      ensures OneMessage(symptomStatus, symptomError)
      ensures periodStatus == old(periodStatus) && periodError == old(periodError)
    {
      symptomError := None;
      symptomStatus := None;
      if symptomName == "" || severity == "" {
        symptomError := Some(MissingChoice);
        return None;
      }
      request := Some(SymptomEntry(symptomName, severity));
      match outcome {
        case Ok(_) =>
          symptomStatus := Some("Logged successfully.");
          symptomName := "";
          severity := "";
        case Err(e) =>
          symptomError := Some(ErrorText(e, "Something went wrong."));
      }
    }
  }

  /**
   * Every severity the form offers is one the insights screen has a label
   * for, and it is the same label; the symptom values are non-empty apart
   * from the placeholder entry.
   */
  lemma SeverityLabelsAgree()
    ensures forall i :: 0 <= i < |SeverityOptions| ==>
      SeverityOptions[i].value in Insights.SeverityLabels
      && Insights.SeverityLabels[SeverityOptions[i].value] == SeverityOptions[i].caption
    ensures forall i :: 1 <= i < |SymptomOptions| ==> SymptomOptions[i].value != ""
  {
  }

  /**
   * A submitted entry, read back as a log with the same two fields, is
   * counted under its symptom and its severity and shown with the caption
   * the form offered, in the breakdown and in the per-day list alike.
   */
  lemma SubmittedEntryShows(e: SymptomEntry, i: nat, createdAt: Option<string>)
    requires i < |SeverityOptions| && e.severity == SeverityOptions[i].value
    ensures var log := Insights.LogEntry(None, Some(e.symptomname), None, Some(e.severity), createdAt, None, None);
      && Insights.SymptomKey(log) == e.symptomname
      && Insights.SeverityKey(log) == e.severity
      && Insights.BreakdownLabel(e.severity) == SeverityOptions[i].caption
      && Insights.ListRowOf(log) == Insights.ListRow(e.symptomname, Some(SeverityOptions[i].caption))
  {
    SeverityLabelsAgree();
  }
}
