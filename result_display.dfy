/** The read-only report: one row per check, in a fixed order, each with a
    label, an icon, a status text in matching colour, and the reason. */
module ResultDisplay {
  import opened Wrappers
  import opened SafetyTypes

  datatype Icon = CheckIcon | CrossIcon
  datatype Tone = Green | Red

  /** One rendered row of the report. */
  datatype Row = Row(labelText: string, icon: Icon, status: string, tone: Tone, reason: string)

  const CompliantStatus := "Tuân thủ"
  const NonCompliantStatus := "Không tuân thủ"

  /** The row labels, in the order the rows are listed. */
  const Labels: seq<string> := [
    "Mũ bảo hộ màu trắng",
    "Cài quai mũ",
    "Quần áo bảo hộ màu cam",
    "Cài nút tay áo",
    "Giày bảo hộ"
  ]

  /** `ResultRow`: the icon, the status text and its colour all follow
      `compliant`; the label and the reason are shown unchanged. */
  function ResultRow(labelText: string, check: SafetyCheck): (row: Row)
    ensures row.labelText == labelText && row.reason == check.reason
    ensures row.icon == CheckIcon <==> check.compliant
    ensures row.status == CompliantStatus <==> check.compliant
    ensures row.status == NonCompliantStatus <==> !check.compliant
    ensures row.tone == Green <==> check.compliant
  {
    Row(labelText,
        if check.compliant then CheckIcon else CrossIcon,
        if check.compliant then CompliantStatus else NonCompliantStatus,
        if check.compliant then Green else Red,
        check.reason)
  }

  /** `AnalysisResultDisplay`: exactly five rows; row i shows the i-th field of
      the record under the i-th label. */
  function AnalysisResultDisplay(result: AnalysisResult): (rows: seq<Row>)
    ensures |rows| == 5
    ensures forall i :: 0 <= i < 5 ==> rows[i] == ResultRow(Labels[i], Checks(result)[i])
  {
    [ ResultRow(Labels[0], result.whiteHelmet),
      ResultRow(Labels[1], result.helmetStrapFastened),
      ResultRow(Labels[2], result.orangeSuit),
      ResultRow(Labels[3], result.sleeveButtonsFastened),
      ResultRow(Labels[4], result.safetyShoes) ]
  }

  /** Reads a check back from a rendered row. */
  function RowCheck(row: Row): SafetyCheck
  {
    SafetyCheck(row.icon == CheckIcon, row.reason)
  }

  /** Reads a result back from a five-row report. */
  function ReadReport(rows: seq<Row>): (r: Option<AnalysisResult>)
    ensures r.Some? <==> |rows| == 5
  {
    if |rows| == 5 then
      Some(FromChecks([RowCheck(rows[0]), RowCheck(rows[1]), RowCheck(rows[2]), RowCheck(rows[3]), RowCheck(rows[4])]))
    else None
  }

  /** The report loses nothing: every verdict and every reason can be read
      back from it. */
  lemma ReportRoundTrip(result: AnalysisResult)
    ensures ReadReport(AnalysisResultDisplay(result)) == Some(result)
  {
    var rows := AnalysisResultDisplay(result);
    forall i | 0 <= i < 5 ensures RowCheck(rows[i]) == Checks(result)[i] {
      var c := Checks(result)[i];
      assert rows[i] == ResultRow(Labels[i], c);
    }
    ChecksRoundTrip(result);
  }

  /** Labels depend on the position only, never on the check values. */
  lemma LabelsAreFixed(r1: AnalysisResult, r2: AnalysisResult, i: nat)
    requires i < 5
    ensures AnalysisResultDisplay(r1)[i].labelText == AnalysisResultDisplay(r2)[i].labelText == Labels[i]
  {
  }

  /** Row i depends on field i only: results that agree on field i render row i
      identically, whatever their other fields. */
  lemma RowDependsOnItsFieldOnly(r1: AnalysisResult, r2: AnalysisResult, i: nat)
    requires i < 5
    ensures AnalysisResultDisplay(r1)[i] == AnalysisResultDisplay(r2)[i] <==> Checks(r1)[i] == Checks(r2)[i]
  {
    var c1, c2 := Checks(r1)[i], Checks(r2)[i];
    assert AnalysisResultDisplay(r1)[i] == ResultRow(Labels[i], c1);
    assert AnalysisResultDisplay(r2)[i] == ResultRow(Labels[i], c2);
    if ResultRow(Labels[i], c1) == ResultRow(Labels[i], c2) {
      assert c1.compliant == c2.compliant;
    }
  }

  /** Icon, status text and colour always agree within a row. */
  lemma RowIsCoherent(result: AnalysisResult, i: nat)
    requires i < 5
    ensures var row := AnalysisResultDisplay(result)[i];
      && (row.icon == CheckIcon <==> row.status == CompliantStatus)
      && (row.icon == CheckIcon <==> row.tone == Green)
      && (row.icon == CrossIcon <==> row.status == NonCompliantStatus)
  {
    assert AnalysisResultDisplay(result)[i] == ResultRow(Labels[i], Checks(result)[i]);
  }
}
