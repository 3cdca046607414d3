/** The domain record returned by one analysis: five named compliance checks. */
module SafetyTypes {

  /** One yes/no safety criterion with its free-text justification. */
  datatype SafetyCheck = SafetyCheck(compliant: bool, reason: string)

  /** The five checks, in the order the record declares them. */
  datatype AnalysisResult = AnalysisResult(
    whiteHelmet: SafetyCheck,
    helmetStrapFastened: SafetyCheck,
    orangeSuit: SafetyCheck,
    sleeveButtonsFastened: SafetyCheck,
    safetyShoes: SafetyCheck)

  /** The five checks of a result as a sequence, in declaration order. */
  function Checks(r: AnalysisResult): (cs: seq<SafetyCheck>)
    ensures |cs| == 5
  {
    [r.whiteHelmet, r.helmetStrapFastened, r.orangeSuit, r.sleeveButtonsFastened, r.safetyShoes]
  }

  /** Rebuilds a result from five checks given in declaration order. */
  function FromChecks(cs: seq<SafetyCheck>): AnalysisResult
    requires |cs| == 5
  {
    AnalysisResult(cs[0], cs[1], cs[2], cs[3], cs[4])
  }

  /** Listing the checks loses nothing: the record is recovered from its list. */
  lemma ChecksRoundTrip(r: AnalysisResult)
    ensures FromChecks(Checks(r)) == r
  {
  }
}
