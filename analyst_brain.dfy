/** The "capturing the analyst's brain" panel: selecting a long enough passage of the call
    transcript links it to one of three metrics, chosen by keyword, appends the link and a log line,
    and hides the usage hint for good. */
module AnalystBrain {
  import opened Prelude
  import opened JsText

  /** A link from a passage to a metric; `id` stands for the `Date.now()` it was made at. */
  datatype Connection = Connection(id: int, text: string, target: string)

  /** A trimmed selection must be longer than this to be taken. */
  const MinLength: nat := 10

  const SubsidyKeyword: string := "补贴"
  const MarginKeyword: string := "毛利"
  const SellingExpenseTarget: string := "Q4销售费用率"
  const GrossMarginTarget: string := "Q4单车毛利率"
  const SalesVolumeTarget: string := "Q4销量目标"

  /** The opening of every log line, up to the quoted passage. */
  const LogHead: string := "Action saved: Analyst linked ["

  /** `text && text.length > 10` for `text = selection?.toString().trim()`: a selection is taken
      when there is one and its trimmed text is longer than ten characters. */
  predicate Accepted(selection: Option<string>)
    ensures Accepted(selection) ==> selection.Some? && |selection.value| > MinLength && !AllWhitespace(selection.value)
    ensures selection.Some? && AllWhitespace(selection.value) ==> !Accepted(selection)
  {
    match selection
    case None => false
    case Some(s) => TrimEmptyIffAllWhitespace(s); |Trim(s)| > MinLength
  }

  /** The metric a passage is linked to: the subsidy keyword wins over the margin keyword, and
      a passage with neither goes to the sales-volume target. */
  function Target(text: string): (r: string)
    ensures r in {SellingExpenseTarget, GrossMarginTarget, SalesVolumeTarget}
  {
    if Includes(text, SubsidyKeyword) then SellingExpenseTarget
    else if Includes(text, MarginKeyword) then GrossMarginTarget
    else SalesVolumeTarget
  }

  /** The keyword precedence, stated with occurrences of the keywords. */
  lemma TargetPrecedence(text: string)
    ensures (exists i :: OccursAt(text, SubsidyKeyword, i)) ==> Target(text) == SellingExpenseTarget
    ensures (forall i :: !OccursAt(text, SubsidyKeyword, i)) && (exists i :: OccursAt(text, MarginKeyword, i)) ==>
              Target(text) == GrossMarginTarget
    ensures (forall i :: !OccursAt(text, SubsidyKeyword, i)) && (forall i :: !OccursAt(text, MarginKeyword, i)) ==>
              Target(text) == SalesVolumeTarget
  {
    IncludesSpec(text, SubsidyKeyword);
    IncludesSpec(text, MarginKeyword);
  }

  /** `text.substring(0, 50) + '...'`: at most the first fifty characters, always followed by an
      ellipsis. */
  function ConnectionText(text: string): (r: string)
    ensures |r| == (if |text| <= 50 then |text| else 50) + 3
    ensures r[..|r| - 3] <= text && r[|r| - 3..] == "..."
  {
    Prefix(text, 50) + "..."
  }

  /** The log line: it starts with the fixed head, quotes the first thirty characters of the
      passage right after it and names the metric right before its closing bracket. */
  function LogEntry(text: string, target: string): (r: string)
    ensures |r| == |LogHead| + |Prefix(text, 30)| + 8 + |target| + 1
    ensures OccursAt(r, LogHead, 0)
    ensures OccursAt(r, Prefix(text, 30), |LogHead|)
    ensures OccursAt(r, target, |r| - |target| - 1)
    ensures r[|r| - 1] == ']'
  {
    LogHead + Prefix(text, 30) + "...] → [" + target + "]"
  }

  class AnalystBrainCapture {
    var selectedText: string
    var connections: seq<Connection>
    var showHint: bool
    var actionLog: seq<string>

    /** The hint shows exactly until the first link is made, and every link has its log line. */
    ghost predicate Valid()
      reads this
    {
      (showHint <==> connections == []) && |actionLog| == |connections|
    }

    constructor ()
      ensures Valid()
      ensures selectedText == "" && connections == [] && showHint && actionLog == []
    {
      selectedText, connections, showHint, actionLog := "", [], true, [];
    }

    /** handleTextSelection, with the delayed half taken as immediate. `selection` is what
        `window.getSelection()` yields (`None` for `null`) and `now` stands for `Date.now()`. An
        ignored selection changes nothing; a taken one records the trimmed text, hides the hint and
        appends one connection and one log line. */
    method HandleTextSelection(selection: Option<string>, now: int)
      requires Valid()
      modifies this
      ensures Valid()
      ensures !Accepted(selection) ==>
                selectedText == old(selectedText) && connections == old(connections) &&
                showHint == old(showHint) && actionLog == old(actionLog)
      ensures Accepted(selection) ==>
                var text := Trim(selection.value);
                && selectedText == text
                && !showHint
                && connections == old(connections) + [Connection(now, ConnectionText(text), Target(text))]
                && actionLog == old(actionLog) + [LogEntry(text, Target(text))]
    {
      if selection.Some? {
        var text := Trim(selection.value);
        if |text| > MinLength {
          selectedText := text;
          showHint := false;
          var connection := Connection(now, ConnectionText(text), Target(text));
          connections := connections + [connection];
          actionLog := actionLog + [LogEntry(text, connection.target)];
        }
      }
    }
  }
}
