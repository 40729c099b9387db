/**
 * The raw result each source collector hands to the normalizer. The collectors
 * themselves (HTTP, headless browser, PDF text) are outside this model; only the
 * record shapes they return are kept here. An optional TypeScript field is an Option.
 */
module CollectorResults {
  import opened Optional

  /** Telebirr receipt as scraped from the receipt page; every field is a string. */
  datatype TelebirrReceipt = TelebirrReceipt(
    payerName: string,
    payerTelebirrNo: string,
    creditedPartyName: string,
    creditedPartyAccountNo: string,
    transactionStatus: string,
    receiptNo: string,
    paymentDate: string,
    settledAmount: string,
    serviceFee: string,
    serviceFeeVAT: string,
    totalPaidAmount: string,
    bankName: string)

  /**
   * CBE result, read from the receipt PDF. `amount` is already a number and `date`
   * an already-built (valid) Date, given here as milliseconds since the epoch.
   */
  datatype CBEVerifyResult = CBEVerifyResult(
    success: bool,
    payer: Option<string>,
    payerAccount: Option<string>,
    receiver: Option<string>,
    receiverAccount: Option<string>,
    amount: Option<real>,
    date: Option<int>,
    reference: Option<string>,
    error: Option<string>)

  datatype DashenVerifyResult = DashenVerifyResult(
    success: bool,
    senderName: Option<string>,
    senderAccountNumber: Option<string>,
    receiverName: Option<string>,
    receiverAccountNumber: Option<string>,
    transactionAmount: Option<string>,
    serviceCharge: Option<string>,
    total: Option<string>,
    transactionDate: Option<string>,
    transactionReference: Option<string>,
    narrative: Option<string>,
    error: Option<string>)

  datatype AbyssiniaVerifyResult = AbyssiniaVerifyResult(
    success: bool,
    transactionReference: Option<string>,
    payer: Option<string>,
    payerAccount: Option<string>,
    receiver: Option<string>,
    receiverAccount: Option<string>,
    amount: Option<string>,
    date: Option<string>,
    status: Option<string>,
    reason: Option<string>,
    error: Option<string>)

  datatype CBEBirrVerifyResult = CBEBirrVerifyResult(
    success: bool,
    receiptNumber: Option<string>,
    payer: Option<string>,
    receiver: Option<string>,
    receiverAccount: Option<string>,
    amount: Option<string>,
    fees: Option<string>,
    status: Option<string>,
    timestamp: Option<string>,
    error: Option<string>)
}
