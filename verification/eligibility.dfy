/** Acceptance of the eligibility endpoint's answer (`fetchVaccineData`):
    the opaque `vaccineData` token the rest of the run uses, or `null`. */
module Eligibility {
  import opened Options

  /** What the eligibility request produced: it threw (network failure, a
      status the HTTP client rejects), or it answered with a status and a body
      carrying `eligible` (its truthiness) and `vaccineData`. */
  datatype EligibilityResponse =
    | EligibilityThrew
    | EligibilityAnswer(status: int, eligible: bool, vaccineData: Option<string>)

  /** The token, or `None` for the source's `null`. */
  function VaccineDataToken(response: EligibilityResponse): (token: Option<string>)
    ensures token.Some? <==>
      && response.EligibilityAnswer?
      && response.status == 200
      && response.eligible
      && response.vaccineData.Some?
      && |response.vaccineData.value| > 0
    ensures token.Some? ==> token == response.vaccineData
  {
    match response
    case EligibilityThrew => None
    case EligibilityAnswer(status, eligible, vaccineData) =>
      if status != 200 then None
      else if eligible && vaccineData.Some? && |vaccineData.value| > 0 then vaccineData
      else None
  }
}
