/**
 * The canonical record every source is mapped into and the verdict the secondary
 * validator produces.
 */
module NormalizedTypes {
  import opened Optional
  import opened JsText
  import CollectorResults

  /** `'success' | 'failed' | 'pending'`. */
  datatype TransactionStatus = Success | Failed | Pending

  /**
   * A point in time as JavaScript's `Date` holds it: milliseconds since the epoch,
   * or the invalid date (`getTime()` is NaN). The canonical record keeps this
   * value where the source keeps its ISO-8601 text.
   */
  datatype Timestamp = Instant(ms: int) | InvalidTime

  /** The untouched collector record kept in `raw_data`, tagged by its source. */
  datatype RawData =
    | TelebirrData(telebirr: CollectorResults.TelebirrReceipt)
    | CBEData(cbe: CollectorResults.CBEVerifyResult)
    | DashenData(dashen: CollectorResults.DashenVerifyResult)
    | AbyssiniaData(abyssinia: CollectorResults.AbyssiniaVerifyResult)
    | CBEBirrData(cbebirr: CollectorResults.CBEBirrVerifyResult)

  /** `NormalizedVerifierResponse`: the canonical transaction. */
  datatype NormalizedVerifierResponse = NormalizedVerifierResponse(
    success: bool,
    payment_method: string,
    amount: real,
    receiver_name: Option<string>,
    receiver_account: Option<string>,
    payer_name: Option<string>,
    payer_account: Option<string>,
    date: Timestamp,
    timestamp: Option<string>,
    receipt_reference: string,
    status: TransactionStatus,
    raw_data: Option<RawData>,
    error: Option<string>)
  {
    /** A failed fetch is tagged with amount 0 and status failed, and carries an error. */
    predicate FailureTagged() {
      !success ==> amount == 0.0 && status == Failed && error.Some? && raw_data.None?
    }

    /** No optional identity field holds an empty string: empty means absent. */
    predicate NoEmptyIdentity() {
      && (receiver_name.Some? ==> Present(receiver_name))
      && (receiver_account.Some? ==> Present(receiver_account))
      && (payer_name.Some? ==> Present(payer_name))
      && (payer_account.Some? ==> Present(payer_account))
    }
  }

  /** `ValidationChecks`: two plain checks and two tri-state ones (None means not applicable). */
  datatype ValidationChecks = ValidationChecks(
    amount_match: bool,
    receiver_account_match: Option<bool>,
    receiver_name_match: Option<bool>,
    date_within_window: bool)

  /**
   * One entry of `failed_reasons`, holding exactly the values the source
   * interpolates into its message; `ReasonText` renders the message.
   */
  datatype FailureReason =
    | AmountTooLow(minimum: real, found: real)
    | WrongAccount(expectedSuffix: string, actualValue: string)
    | WrongName(expectedName: string, foundName: string)
    | DateOutsideWindow(windowHours: nat, date: Timestamp)
  {
    /** Position of the check this reason belongs to, in evaluation order. */
    function CheckIndex(): (k: nat)
      ensures k < 4
    {
      match this
      case AmountTooLow(_, _) => 0
      case WrongAccount(_, _) => 1
      case WrongName(_, _) => 2
      case DateOutsideWindow(_, _) => 3
    }
  }

  /** `ValidationResult`. */
  datatype ValidationResult = ValidationResult(
    passed: bool,
    checks: ValidationChecks,
    failed_reasons: seq<FailureReason>)
}
