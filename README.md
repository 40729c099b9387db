# Payment verifier decision layer, in Dafny

This project models the decision layer of a payment-verification service for
Ethiopian payment methods (Telebirr, CBE, Dashen, Abyssinia, CBE Birr). A
collector scrapes what a bank shows for a payment. What it returns goes through
two steps:

- the **normalizer** maps it into one canonical record, `NormalizedVerifierResponse`;
- the **secondary validator** checks that record against the receiver profile
  of its payment method and produces a `ValidationResult`.

Eight modules hold the model:

- `Optional`, `JsText`: JavaScript's truthiness of optional strings, the `\s`
  character class, `toLowerCase`, `trim`, `replace(/\s+/g, ' ')`, `includes`
  and `slice(-n)`.
- `CollectorResults`, `NormalizedTypes`: the record shapes of the raw collector
  results, of the canonical transaction, of the checks and of the verdict.
- `ReceiverProfiles`: the shipped profile table and the configuration
  constants (window 24 h, tolerance 1 ETB, suffix 6 characters,
  `strictNameMatch` false).
- `Normalizer`: the three field parsers (`parseAmount`, `parseDate`,
  `parseStatus`) as functions, and the five per-method mapping functions.
- `SecondaryValidator`: the four checks and the verdict.
  - `accountsMatch` is a method with its loop and early returns, proved equal
    to the specification function `AccountsMatchSpec`.
  - `validateTransaction` is a method that fills in the checks one at a time
    and appends a reason after each failed one. It is proved equal to the
    function `Verdict`, whose properties are proved as lemmas.
  - The failure reasons are a datatype holding exactly the values the source
    interpolates. `ReasonText` renders the message.

- `EndToEnd`: whole-pipeline scenarios against the shipped profiles.

Three things are parameters:

- the clock, as `now` in milliseconds;
- JavaScript's generic `new Date(text)` parse, as `parse: string -> Timestamp`;
- the number and date renderings used in messages, as `showNumber` and `showDate`.

A date is kept as a `Timestamp`, which is either `Instant(ms)` or `InvalidTime`.
The source keeps the ISO-8601 text that `toISOString` produces at that place.

Behaviour of the code that the proofs make explicit:

- **Negative amounts.** `parseAmount` accepts a leading `-`, so the amount
  text `-5` gives -5 (`ParseAmountNegative`) and the canonical amount can be
  negative.
- **Blank actual name.** A present actual name made only of whitespace
  normalises to the empty string. Every expected name contains the empty
  string, so the name check passes (`NamesMatchBlankActual`).
- **Case of account letters.** The actual account character is lower-cased
  and the expected one is not. An expected account holding an upper-case
  letter other than `X` therefore does not even match itself
  (`AccountsMatchSelf`). The shipped accounts are all digits, so they do
  match themselves (`CBEAccountSelfMatch`).
- **Masked Abyssinia account.** With suffix 6, the account `***816408`
  compares as `816408`, the same as the profile account `138816408`
  (`AbyssiniaMaskedAccountMatches`). The code compares the last six
  characters of each account, which are all digits here.
- **Accounts made only of formatting.** A present expected account such as
  `-` normalises to the empty string but is still present, so the account
  check runs and fails. Deleting the `-` makes it the empty string, which
  counts as absent, so the check is skipped (`AccountsMatchFormattingOnly`).
  Removing formatting characters changes nothing only while the account
  stays non-empty (`AccountsMatchIgnoresFormatting`).
- **Date reason text.** The date reason contains the characters `Â±` where
  `±` was meant. The model keeps the text as the source writes it.

## Model

| member | source | states |
|---|---|---|
| JsText.IsWhitespace | src/utils/secondaryValidator.ts:28 | the characters `\s` matches, which are also the ones `trim()` removes: the ECMAScript white space and line terminators |
| JsText.LowerChar | src/utils/secondaryValidator.ts:61 | `toLowerCase` maps each ASCII capital to the lower-case letter at the same place in the alphabet, leaves every other character unchanged, and never yields a capital |
| JsText.ToLower | src/utils/normalizer.ts:63 | lower-casing keeps the length and lower-cases character by character |
| JsText.ToLowerAppend | src/utils/secondaryValidator.ts:28 | lower-casing distributes over concatenation |
| JsText.LowerCharWhitespace | src/utils/secondaryValidator.ts:28 | lower-casing neither makes nor removes whitespace |
| JsText.Present | src/utils/normalizer.ts:20 | the JavaScript truthiness of an optional string, as in `!amountStr`, `!rawStatus`, `!expected` and `!actual`: present and not empty |
| JsText.OrAbsent | src/utils/normalizer.ts:93-96 | `x \|\| undefined` is present exactly when `x` is a non-empty string, and then equals `x` |
| JsText.OrElse | src/utils/normalizer.ts:98 | `x \|\| fallback` is `x` when non-empty, else the fallback |
| JsText.TrimStart | src/utils/secondaryValidator.ts:28 | removes exactly a leading run of whitespace: what remains is a suffix that does not start with whitespace |
| JsText.TrimEnd | src/utils/secondaryValidator.ts:28 | removes exactly a trailing run of whitespace: what remains is a prefix that does not end with whitespace |
| JsText.Trim | src/utils/normalizer.ts:27 | `trim()` never lengthens the text |
| JsText.TrimTrimmed | src/utils/normalizer.ts:27 | what `trim()` leaves neither starts nor ends with whitespace, and text that already does neither is unchanged |
| JsText.CollapseWhitespace | src/utils/secondaryValidator.ts:28 | `replace(/\s+/g, ' ')` never lengthens the text; what it produces is stated by `CollapseWhitespaceRun` and `CollapseWhitespaceCons` |
| JsText.CollapseWhitespaceFirst | src/utils/secondaryValidator.ts:28 | a non-empty text collapses to a non-empty one that starts with whitespace iff the text does |
| JsText.CollapseWhitespaceKeeps | src/utils/secondaryValidator.ts:28 | every character of the result other than whitespace comes from the input |
| JsText.CollapseWhitespaceSpaced | src/utils/secondaryValidator.ts:28 | the only whitespace left is single spaces, never two in a row |
| JsText.TrimStartRun | src/utils/secondaryValidator.ts:28 | trimming the start removes exactly a leading whitespace run and nothing after it |
| JsText.CollapseWhitespaceCons | src/utils/secondaryValidator.ts:28 | a character other than whitespace is copied and the rest is collapsed after it |
| JsText.CollapseWhitespaceRun | src/utils/secondaryValidator.ts:28 | a maximal whitespace run of any length and kind becomes exactly one space, and the texts on either side of it are collapsed on their own |
| JsText.Includes | src/utils/secondaryValidator.ts:34-35 | the empty pattern is always included, and a pattern longer than the text never is |
| JsText.IncludesIff | src/utils/secondaryValidator.ts:34-35 | the left-to-right `includes` scan is true iff the pattern occurs at some index |
| JsText.IncludesSelf | src/utils/secondaryValidator.ts:33-35 | every string includes itself |
| JsText.SliceLast | src/utils/secondaryValidator.ts:53-54 | `slice(-n)` is a suffix of length `min(n, len)` for n > 0, and the whole string for n = 0 |
| ReceiverProfiles.ProfileFor | src/utils/secondaryValidator.ts:112 | the table's profile for a known method, the empty profile otherwise |
| ReceiverProfiles.ProfileKeys | src/config/receiverProfiles.ts:15-32 | the table has exactly the five methods as keys |
| ReceiverProfiles.TelebirrProfileHasBoth | src/config/receiverProfiles.ts:16-19 | the Telebirr profile has a present name and the account `0962071522` |
| ReceiverProfiles.AccountOnlyProfiles | src/config/receiverProfiles.ts:20-28 | the CBE and Abyssinia profiles have an account and no name |
| ReceiverProfiles.NameOnlyProfiles | src/config/receiverProfiles.ts:23-31 | the Dashen and CBE Birr profiles have the name `SOSHA OS PLC` and no account |
| ReceiverProfiles.ConfigValues | src/config/receiverProfiles.ts:37-52 | window 24, tolerance 1, suffix 6, strictNameMatch false |
| NormalizedTypes.NormalizedVerifierResponse.FailureTagged | src/utils/normalizer.ts:108-117 | a record with `success` false has amount 0, status failed, an error and no raw data; every mapping function ensures it |
| NormalizedTypes.NormalizedVerifierResponse.NoEmptyIdentity | src/utils/normalizer.ts:93-96 | no optional name or account field holds the empty string, since `x \|\| undefined` turns it into absence; every mapping function ensures it |
| NormalizedTypes.FailureReason.CheckIndex | src/utils/secondaryValidator.ts:123-176 | each reason kind belongs to one of the four checks, numbered 0 to 3 in evaluation order |
| Normalizer.RemoveChar | src/utils/normalizer.ts:24 | `replace(/[,]/g, '')` leaves no comma behind and never lengthens the text; `RemoveCharAppend`, `RemoveCharAbsent` and `RemoveCharOne` determine it on every input |
| Normalizer.RemoveCharAppend | src/utils/normalizer.ts:24 | removing commas distributes over concatenation |
| Normalizer.RemoveCharAbsent | src/utils/normalizer.ts:24 | text without commas is unchanged |
| Normalizer.RemoveCharOne | src/utils/normalizer.ts:24 | the removed character on its own leaves nothing; with `RemoveCharAppend` and `RemoveCharAbsent` this fixes the result on every input |
| Normalizer.EqualsIgnoringCase | src/utils/normalizer.ts:25-26 | the comparison of the `i` flag: same length and equal character by character after lower-casing; its meaning is stated by `EqualsIgnoringCaseIff` |
| Normalizer.EqualsIgnoringCaseIff | src/utils/normalizer.ts:25-26 | the character-wise case-insensitive comparison of the `i` flag is equality of the lower-cased texts |
| Normalizer.RemoveIgnoringCase | src/utils/normalizer.ts:25-26 | `replace(/tok/gi, '')` never lengthens the text; what it deletes and keeps is stated by the five lemmas below |
| Normalizer.RemoveIgnoringCaseKeeps | src/utils/normalizer.ts:25-26 | a first character that cannot start the token is kept |
| Normalizer.RemoveIgnoringCaseKeepsPrefix | src/utils/normalizer.ts:25-26 | a prefix in which the token cannot start passes through unchanged |
| Normalizer.RemoveIgnoringCaseDrops | src/utils/normalizer.ts:25-26 | an occurrence of the token in any letter case at the front is deleted, and the scan resumes right after it |
| Normalizer.RemoveIgnoringCaseDeletes | src/utils/normalizer.ts:25-26 | after a prefix in which the token cannot start, an occurrence in any letter case is deleted and the prefix is kept |
| Normalizer.RemoveIgnoringCaseAbsent | src/utils/normalizer.ts:25-26 | text in which the token occurs at no index, in any letter case, is left unchanged |
| Normalizer.CleanAmountText | src/utils/normalizer.ts:23-27 | the cleaned text is never longer than the input; what it keeps is stated by `CleanNumeric` |
| Normalizer.LeadingDigits | src/utils/normalizer.ts:29 | the digit prefix `parseFloat` reads is a prefix of digits that is followed by a non-digit or the end |
| Normalizer.LeadingDigitsOf | src/utils/normalizer.ts:29 | digits followed by a non-digit are read exactly |
| Normalizer.ParseFloatPrefix | src/utils/normalizer.ts:29 | `parseFloat`: the value of an optional sign, digits and an optional `.` fraction at the start of the text, or NaN (`None`); its contract is stated by `ParseFloatPrefixSigned`, `ParseFloatPrefixNaN`, `ParseFloatPrefixDigitLed`, `ParseFloatPrefixReads`, `ParseFloatPrefixReadsWhole` and `ParseFloatPrefixReadsDotLed` |
| Normalizer.ParseUnsigned | src/utils/normalizer.ts:29 | `parseFloat` after the sign: digits with an optional `.` and fraction, or `.` and at least one digit, else NaN; its contract is stated by `ParseUnsignedDigitLed`, `ParseUnsignedDotLed` and `ParseFloatPrefixNaN` |
| Normalizer.ParseFloatPrefixNaN | src/utils/normalizer.ts:29-30 | `parseFloat` gives NaN exactly when no number starts the text: neither a digit nor a `.` and a digit, after an optional sign |
| Normalizer.StartsNumber | src/utils/normalizer.ts:29-30 | an independent description of the texts `parseFloat` reads a number from: an optional sign, then a digit, or a `.` followed by a digit |
| Normalizer.ParseFloatPrefixSigned | src/utils/normalizer.ts:29 | a `-` or `+` in front of a text led by a digit or a `.` is read as its sign: a minus negates the unsigned reading and a plus leaves it as it is |
| Normalizer.ParseUnsignedDigitLed | src/utils/normalizer.ts:29 | a digit-led text is read as its leading digits and the digits after a `.` that follows them |
| Normalizer.ParseUnsignedDotLed | src/utils/normalizer.ts:29 | a text led by `.` and digits, then text not starting with a digit, is read as that fraction with no whole part |
| Normalizer.ParseFloatPrefixDigitLed | src/utils/normalizer.ts:29 | for text led by a digit after an optional `-` or `+`, the value is the signed value of the leading digits and of the digits after a `.` that follows them |
| Normalizer.ParseFloatPrefixReads | src/utils/normalizer.ts:29 | an optional sign, digits, `.` and digits, followed by any text that does not start with a digit (as in `600.00 only`), parse to the signed decimal value |
| Normalizer.ParseFloatPrefixReadsWhole | src/utils/normalizer.ts:29 | an optional sign and digits, followed by any text that starts with neither a digit nor a `.`, parse to the signed value of the digits |
| Normalizer.ParseFloatPrefixReadsDotLed | src/utils/normalizer.ts:29 | an optional sign, `.` and digits, then any text not starting with a digit (`.5`, `-.75`), give the signed fraction |
| Normalizer.ParseAmount | src/utils/normalizer.ts:18-31 | a number passes through unchanged; absent or empty text gives 0 |
| Normalizer.ParseAmountNaN | src/utils/normalizer.ts:23-30 | text in which, once cleaned, no number starts gives 0, including text that cleans to nothing |
| Normalizer.ParseAmountOfClean | src/utils/normalizer.ts:20-30 | a non-empty amount text is parsed from what cleaning leaves, and NaN gives 0 |
| Normalizer.ParseAmountReads | src/utils/normalizer.ts:18-31 | whatever the text, when cleaning leaves a signed decimal number followed by other text, the amount is the value of that number |
| Normalizer.ParseAmountWhole | src/utils/normalizer.ts:18-31 | an optionally signed whole number, bare or followed by `birr` or `etb` in any letter case, with or without one space before it (`600 Birr`, `600 birr`, `600ETB`), parses to its signed value |
| Normalizer.ParseAmountNegative | src/utils/normalizer.ts:23-30 | the text `-5` parses to -5 |
| Normalizer.ParseAmountIgnoresCommas | src/utils/normalizer.ts:23-30 | a comma anywhere in the amount text never changes the parsed amount |
| Normalizer.UnitSuffixNoComma | src/utils/normalizer.ts:24 | a unit suffix holds no comma, so the comma pass leaves it alone |
| Normalizer.UnitRemoved | src/utils/normalizer.ts:25-26 | a unit word `birr` or `etb` in any letter case, with or without one space before it, is removed by the two passes, which leave only that space |
| Normalizer.NumericDecimal | src/utils/normalizer.ts:23-27 | an optionally signed `whole.frac` consists of digits, dots and signs only |
| Normalizer.NumericWhole | src/utils/normalizer.ts:23-27 | an optionally signed run of digits consists of digits and signs only |
| Normalizer.TrimNumeric | src/utils/normalizer.ts:27 | trim removes the one space left behind by a unit word and nothing of the number |
| Normalizer.CleanNumeric | src/utils/normalizer.ts:23-27 | cleaning keeps a non-empty text of digits, dots and signs unchanged and removes a unit word after it, in any letter case, with or without one space before it |
| Normalizer.ParseAmountDecimal | src/utils/normalizer.ts:18-31 | an optionally signed `whole.frac`, bare or followed by such a unit word, parses to its signed decimal value |
| Normalizer.ParseAmountDotLed | src/utils/normalizer.ts:18-31 | an optionally signed `.frac` with no whole digits (`.50 ETB`), bare or followed by a unit word, parses to its signed fraction |
| Normalizer.SixHundredValue | src/utils/normalizer.ts:29 | `600` and `00` are digit strings and `600.00` denotes 600 |
| Normalizer.BirrSuffix | src/utils/normalizer.ts:25 | ` Birr` is a unit suffix |
| Normalizer.ParseAmountTelebirrExample | src/utils/normalizer.ts:18-31 | `600.00 Birr` parses to 600 |
| Normalizer.TwelveFiftyValue | src/utils/normalizer.ts:29 | `1250` and `50` are digit strings and `1250.50` denotes 1250.5 |
| Normalizer.EtbSuffix | src/utils/normalizer.ts:26 | ` ETB` is a unit suffix |
| Normalizer.ParseAmountSeparatorExample | src/utils/normalizer.ts:18-31 | `1,250.50 ETB` parses to 1250.5 |
| Normalizer.WhitespaceRunEnd | src/utils/normalizer.ts:42 | `\s+` extends exactly to the end of the whitespace run |
| Normalizer.TelebirrDateAt | src/utils/normalizer.ts:42 | a match of `DD-MM-YYYY\s+HH:MM:SS` at an index has its separators in place and six captures of 2, 2, 4, 2, 2 and 2 digits taken from the matched positions |
| Normalizer.DateFields.Rebuilt | src/utils/normalizer.ts:45 | the text `year-month-dayThour:min:sec` that the Telebirr branch hands to `new Date` |
| Normalizer.FindTelebirrDate | src/utils/normalizer.ts:42 | every match the search returns has 2-, 2-, 4-, 2-, 2- and 2-digit fields |
| Normalizer.FindTelebirrDateAt | src/utils/normalizer.ts:42 | the search from an index returns the match at `i` when no match starts in between |
| Normalizer.FindTelebirrDateLeftmost | src/utils/normalizer.ts:42-43 | a match the search returns is a match at some index, with no match at any earlier index |
| Normalizer.FindTelebirrDateComplete | src/utils/normalizer.ts:42-43 | when the search finds nothing, the pattern matches at no index |
| Normalizer.ParseDate | src/utils/normalizer.ts:36-55 | absent or empty text is "now"; the result is invalid only when the text holds a Telebirr date whose rebuilt form does not parse |
| Normalizer.ParseDateGeneric | src/utils/normalizer.ts:48-54 | text without the Telebirr pattern takes the generic parse when valid, else "now" |
| Normalizer.ParseDateTelebirrFormat | src/utils/normalizer.ts:42-46 | `DD-MM-YYYY HH:MM:SS` is parsed as `YYYY-MM-DDTHH:MM:SS` with the same six fields |
| Normalizer.ParseDateTelebirrMatch | src/utils/normalizer.ts:42-46 | text holding a Telebirr date anywhere, leftmost at `i`, is parsed as the `YYYY-MM-DDTHH:MM:SS` rebuilt from that match |
| Normalizer.TelebirrTextMatches | src/utils/normalizer.ts:42 | the pattern matches a well-formed `DD-MM-YYYY HH:MM:SS` at index 0 and captures its six fields |
| Normalizer.Mentions | src/utils/normalizer.ts:64 | `includes`: the word occurs in the text at some index |
| Normalizer.SuccessWord | src/utils/normalizer.ts:64 | the lower-cased status contains `success`, `completed` or `paid` |
| Normalizer.FailureWord | src/utils/normalizer.ts:67 | the lower-cased status contains `fail`, `reject` or `cancel` |
| Normalizer.ParseStatus | src/utils/normalizer.ts:60-61 | an absent or empty status is pending |
| Normalizer.ParseStatusIff | src/utils/normalizer.ts:60-71 | success iff the status is present and its lower-cased text contains a success word; failed iff it is present, contains a failure word and no success word; pending iff it is absent or empty, or contains neither |
| Normalizer.ParseStatusSuccessWins | src/utils/normalizer.ts:64-66 | an occurrence of `success`, `completed` or `paid` gives success, whatever else the text says |
| Normalizer.FailureResponse | src/utils/normalizer.ts:108-118 | a failure record is unsuccessful, with amount 0, status failed, the given tag, reference and error, and date "now" |
| Normalizer.NormalizeTelebirr | src/utils/normalizer.ts:76-102 | `null` gives the failure record under the caller's reference; otherwise the parsed amount, status and payment date, `receiptNo` or the caller's reference, receiver and payer name and account from the receipt with empty ones absent, raw data kept |
| Normalizer.NormalizeCBE | src/utils/normalizer.ts:107-133 | failure tagged with the collector's error or the default message; on success status success, amount `data.amount \|\| 0`, date the collector's or "now", receiver and payer name and account from the result with empty ones absent, raw data kept |
| Normalizer.NormalizeDashen | src/utils/normalizer.ts:138-164 | failure tagged with the collector's error or the default message; on success status success, parsed amount and date, receiver and payer (sender) name and account from the result with empty ones absent, raw data kept |
| Normalizer.NormalizeAbyssinia | src/utils/normalizer.ts:169-195 | failure tagged with the collector's error or the default message; on success the parsed status, amount and date, receiver and payer name and account from the result with empty ones absent, raw data kept |
| Normalizer.NormalizeCBEBirr | src/utils/normalizer.ts:200-225 | as Abyssinia, with the date taken from `timestamp`; the payer name comes from the result and the payer account is never set |
| SecondaryValidator.NameKey | src/utils/secondaryValidator.ts:28 | the normalised name is never longer than the name; its shape follows from the lemmas on `ToLower`, `CollapseWhitespace` and `Trim`, and `NameKeySpacing` |
| SecondaryValidator.NamesMatch | src/utils/secondaryValidator.ts:24-36 | null iff the expected name is absent or empty; false when it is present and the actual name is not |
| SecondaryValidator.KeysMatch | src/utils/secondaryValidator.ts:33-35 | equality, or containment either way, of the normalised names; its meaning is stated by `KeysMatchIff` |
| SecondaryValidator.KeysMatchIff | src/utils/secondaryValidator.ts:33-35 | equality or containment is the same as containment in either direction |
| SecondaryValidator.NamesMatchIff | src/utils/secondaryValidator.ts:24-36 | two present names match iff either normalised name occurs in the other |
| SecondaryValidator.NamesMatchSymmetric | src/utils/secondaryValidator.ts:33-35 | for two present names the order of the arguments does not matter |
| SecondaryValidator.NamesMatchIgnoresCase | src/utils/secondaryValidator.ts:28 | names equal up to letter case are interchangeable on either side |
| SecondaryValidator.NamesMatchIgnoresSpacing | src/utils/secondaryValidator.ts:28-35 | a whitespace run of any length and kind inside a name counts as one space, on either side of the comparison |
| SecondaryValidator.NameKeySpacing | src/utils/secondaryValidator.ts:28 | the normalised name does not depend on how a whitespace run inside the name is written |
| SecondaryValidator.NamesMatchSameKey | src/utils/secondaryValidator.ts:29-35 | present names with the same normalised form give the same result, on either side |
| SecondaryValidator.ToLowerWhitespace | src/utils/secondaryValidator.ts:28 | lower-casing leaves whitespace unchanged |
| SecondaryValidator.BlankNameKey | src/utils/secondaryValidator.ts:28 | a name made only of whitespace normalises to the empty string |
| SecondaryValidator.CollapseBlank | src/utils/secondaryValidator.ts:28 | a run made only of whitespace collapses to one space |
| SecondaryValidator.TrimSpace | src/utils/secondaryValidator.ts:28 | trimming one space leaves nothing |
| SecondaryValidator.TrimStartBlank | src/utils/secondaryValidator.ts:28 | trimming a string made only of whitespace leaves nothing |
| SecondaryValidator.NamesMatchBlankActual | src/utils/secondaryValidator.ts:26-35 | a present actual name made only of whitespace passes against every present expected name |
| SecondaryValidator.IsFormatting | src/utils/secondaryValidator.ts:48 | the characters `[\s\-\.]` matches: whitespace, `-` and `.` |
| SecondaryValidator.StripFormatting | src/utils/secondaryValidator.ts:48 | the normalised account contains no whitespace, `-` or `.` |
| SecondaryValidator.StripFormattingAppend | src/utils/secondaryValidator.ts:48 | the account normalisation distributes over concatenation |
| SecondaryValidator.StripFormattingDrops | src/utils/secondaryValidator.ts:48 | a formatting character anywhere is dropped |
| SecondaryValidator.NoFormattingKept | src/utils/secondaryValidator.ts:48 | an account without formatting is its own normalisation |
| SecondaryValidator.IsWildcard | src/utils/secondaryValidator.ts:61-64 | an actual character that is `*` or `x` after lower-casing, so also `X`, which matches any expected character |
| SecondaryValidator.AccountsMatchSpec | src/utils/secondaryValidator.ts:43-69 | null iff the expected account is absent or empty; false when it is present and the actual one is not |
| SecondaryValidator.AccountsMatch | src/utils/secondaryValidator.ts:43-69 | the loop with its early returns computes exactly `AccountsMatchSpec`: the actual suffix is long enough and every position is a wildcard or equals the expected character after lower-casing |
| SecondaryValidator.AccountsMatchIgnoresFormatting | src/utils/secondaryValidator.ts:48-50 | inserting a space, `-` or `.` into either account changes nothing, provided the account is non-empty without it |
| SecondaryValidator.AccountsMatchFormattingOnly | src/utils/secondaryValidator.ts:43-69 | that proviso is needed: against actual `1`, the expected account `-` gives false while the empty expected account gives null |
| SecondaryValidator.AccountsMatchShortFails | src/utils/secondaryValidator.ts:57 | an actual suffix shorter than `min(suffixDigits, len(expectedNorm))` fails |
| SecondaryValidator.AccountsMatchAllMasked | src/utils/secondaryValidator.ts:59-66 | a long enough actual account of wildcards only matches every expected account |
| SecondaryValidator.AccountsMatchOnlySuffixCounts | src/utils/secondaryValidator.ts:53-54 | characters before the last `suffixDigits` significant ones are never looked at |
| SecondaryValidator.AccountsMatchSameSuffix | src/utils/secondaryValidator.ts:53-68 | two actual accounts with the same normalised suffix get the same result |
| SecondaryValidator.SliceLastOfJoin | src/utils/secondaryValidator.ts:53 | the last n characters of a join come from its second part when that part has n characters |
| SecondaryValidator.AccountsMatchChangeFails | src/utils/secondaryValidator.ts:60-66 | changing a non-wildcard suffix character of a matching account to another non-wildcard character (different in lower case) makes it fail |
| SecondaryValidator.ChangedStaysUnformatted | src/utils/secondaryValidator.ts:48 | replacing a character by a non-formatting one keeps the account its own normalisation |
| SecondaryValidator.ChangedSuffixDisagrees | src/utils/secondaryValidator.ts:60-66 | a suffix that agreed stops agreeing when a non-wildcard position takes a different letter |
| SecondaryValidator.AccountsMatchSelf | src/utils/secondaryValidator.ts:61-65 | an account matches itself iff its compared suffix holds no upper-case letter other than `X` |
| SecondaryValidator.SelfAgreesIff | src/utils/secondaryValidator.ts:61-65 | a suffix agrees with itself iff it holds no non-wildcard capital |
| SecondaryValidator.AccountsMatchDigitsSelf | src/utils/secondaryValidator.ts:43-69 | an account of digits matches itself for every suffix length |
| SecondaryValidator.AccountsMatchMaskedTail | src/utils/secondaryValidator.ts:53-66 | a masked prefix followed by a digit tail matches any unformatted prefix followed by the same tail |
| SecondaryValidator.AccountsMatchUnformatted | src/utils/secondaryValidator.ts:48-57 | for unformatted accounts the decision depends only on the two suffixes |
| SecondaryValidator.UnformattedJoin | src/utils/secondaryValidator.ts:48 | two unformatted parts join to an unformatted account |
| SecondaryValidator.DateWithinWindow | src/utils/secondaryValidator.ts:74-88 | an invalid date is never within the window |
| SecondaryValidator.DateWithinWindowIff | src/utils/secondaryValidator.ts:84-87 | a valid date is within the window iff `\|now - date\| <= windowHours * 3600000` ms |
| SecondaryValidator.DateWindowSymmetric | src/utils/secondaryValidator.ts:84 | a date d ms in the past passes iff the date d ms in the future does |
| SecondaryValidator.DateWindowMonotone | src/utils/secondaryValidator.ts:87 | a wider window accepts every date a narrower one does |
| SecondaryValidator.AmountsMatch | src/utils/secondaryValidator.ts:95-97 | `actual >= expected - tolerance`; its contract is stated by the three lemmas below |
| SecondaryValidator.AmountsMatchOverpayment | src/utils/secondaryValidator.ts:95-97 | with a non-negative tolerance, any payment of at least the expected amount passes |
| SecondaryValidator.AmountsMatchBoundary | src/utils/secondaryValidator.ts:95-97 | `expected - tolerance` passes and everything below it fails |
| SecondaryValidator.AmountsMatchMonotone | src/utils/secondaryValidator.ts:95-97 | paying more never turns a pass into a failure |
| SecondaryValidator.ShownAccount | src/utils/secondaryValidator.ts:143-146 | the actual account shown in the account reason: `...` and its last characters, or `not found`; no contract of its own |
| SecondaryValidator.ChecksFor | src/utils/secondaryValidator.ts:123-176 | the account check is null iff the profile has no account, and the name check is null iff it has no name |
| SecondaryValidator.ReasonAt | src/utils/secondaryValidator.ts:129-176 | check k contributes one reason, of its own kind, exactly when it failed |
| SecondaryValidator.ReasonsFromSpec | src/utils/secondaryValidator.ts:129-176 | the reasons of checks k to 3 are one per failed check, in check order, and nothing else |
| SecondaryValidator.JoinKeepsShape | src/utils/secondaryValidator.ts:129-176 | a reason, or none, for check k in front of well-formed reasons for the later checks stays well-formed |
| SecondaryValidator.JoinOrdered | src/utils/secondaryValidator.ts:129-176 | that join stays in check order |
| SecondaryValidator.JoinReasons | src/utils/secondaryValidator.ts:129-176 | that join holds a reason for a check exactly when the check failed |
| SecondaryValidator.PrependOneOrder | src/utils/secondaryValidator.ts:129-176 | a reason for check k in front of reasons for later checks keeps the check order |
| SecondaryValidator.PrependOneReasons | src/utils/secondaryValidator.ts:129-176 | that list has a reason for k, and for a later check exactly when the rest has one |
| SecondaryValidator.Passes | src/utils/secondaryValidator.ts:181-185 | amount and date must pass, and the account and name checks must each be null or true; its meaning is stated by `PassesIffNoFailedCheck` |
| SecondaryValidator.PassesIffNoFailedCheck | src/utils/secondaryValidator.ts:181-185 | the pass condition holds iff none of the four checks failed |
| SecondaryValidator.Verdict | src/utils/secondaryValidator.ts:107-198 | the result of `validateTransaction`; its contract is stated by `VerdictSummary`, `VerdictReasons`, `VerdictRunsEveryCheck` and the per-method lemmas |
| SecondaryValidator.VerdictSummary | src/utils/secondaryValidator.ts:181-197 | passed iff no reason is recorded; at most four reasons; each tri-state check is null iff the profile lacks its field |
| SecondaryValidator.ValidateTransaction | src/utils/secondaryValidator.ts:107-198 | step by step, the method builds exactly `Verdict`, and it passes iff no reason was pushed |
| SecondaryValidator.ReasonsFromUnrolled | src/utils/secondaryValidator.ts:129-176 | the reasons are the amount, account, name and date reasons, each present iff its check failed, in that order |
| SecondaryValidator.VerdictReasons | src/utils/secondaryValidator.ts:129-176 | the verdict's reasons are in check order, with one for a check exactly when it failed |
| SecondaryValidator.VerdictRunsEveryCheck | src/utils/secondaryValidator.ts:123-171 | every check is the value of its own rule, whatever the others give |
| SecondaryValidator.VerdictUnknownMethod | src/utils/secondaryValidator.ts:112 | an unknown method gets null account and name checks and passes iff amount and date pass |
| SecondaryValidator.VerdictAccountOnlyMethods | src/utils/secondaryValidator.ts:136-165 | CBE and Abyssinia get an account verdict and no name verdict |
| SecondaryValidator.VerdictNameOnlyMethods | src/utils/secondaryValidator.ts:136-165 | Dashen and CBE Birr get a name verdict and no account verdict |
| SecondaryValidator.VerdictTelebirrChecksBoth | src/utils/secondaryValidator.ts:136-165 | Telebirr gets both an account and a name verdict |
| SecondaryValidator.VerdictIgnoresStrictNameMatch | src/config/receiverProfiles.ts:42 | changing `strictNameMatch` never changes a verdict |
| SecondaryValidator.DigitChar | src/utils/secondaryValidator.ts:174 | a digit value is shown as the digit character of that value |
| SecondaryValidator.NatText | src/utils/secondaryValidator.ts:174 | a natural number is shown as a non-empty digit string, without a leading zero, that denotes it |
| SecondaryValidator.ReasonText | src/utils/secondaryValidator.ts:129-176 | the four reason messages, with the values the source interpolates; its contract is stated by `ReasonTextNamesItsCheck` |
| SecondaryValidator.ReasonTextNamesItsCheck | src/utils/secondaryValidator.ts:129-176 | two reasons with the same message belong to the same check |
| EndToEnd.CBEAccountSelfMatch | src/config/receiverProfiles.ts:21 | the CBE profile account matches itself |
| EndToEnd.CBEChecks | src/utils/secondaryValidator.ts:107-176 | a successful CBE result to the profile account, one hour old, gets amount check `amount >= 499`, account true, name null, date true |
| EndToEnd.CBEPaymentPasses | src/utils/secondaryValidator.ts:107-198 | 500 ETB to the profile account one hour ago passes with no reasons |
| EndToEnd.CBEUnderpaymentFails | src/utils/secondaryValidator.ts:129-133 | 480 ETB fails only the amount check, with the single reason citing minimum 499 and 480 found |
| EndToEnd.TelebirrSettledAmountMatches | src/utils/normalizer.ts:92 | a Telebirr settled amount `600.00 Birr` normalises to 600 and meets an expected 600 |
| EndToEnd.AbyssiniaAccountMatch | src/utils/secondaryValidator.ts:43-69 | `***816408` matches `138816408` on the last six characters |
| EndToEnd.AbyssiniaMaskedAccountMatches | src/utils/secondaryValidator.ts:135-141 | an Abyssinia receipt showing `***816408` passes the account check against the profile |
| EndToEnd.TwoDayOldDateFails | src/utils/secondaryValidator.ts:167-176 | a two-day-old transaction fails the date check and the verdict, and the last reason is the date reason |

## Left out

- Collectors, HTTP routing, authentication and the older scrapers: they are
  network, browser and PDF I/O. Only the record shapes they return are modelled.
- Logging in the validator: it has no bearing on the verdict.
- `VerifyPaymentResponse` (src/types/normalizedTypes.ts:76-94): the endpoint
  assembles it and no rule reads it.
- The clock, the generic `new Date(text)` parse and `toISOString` are
  parameters or abstracted. A date is a `Timestamp` value instead of ISO
  text, so the round trip through text is not modelled.
- ParseDate: when the rebuilt Telebirr text does not parse, the source's
  `toISOString` throws a RangeError. The model returns `InvalidTime`
  instead, which the date check rejects.
- ParseDate: the `instanceof Date` branch is not modelled, because every
  caller passes a string or nothing. CBE's already-built date is given as
  milliseconds, and is assumed valid: `toISOString` on an invalid `Date`
  throws a RangeError, which the model does not represent.
- Local-time interpretation of the rebuilt Telebirr text is part of the
  abstract `parse`.
- RemoveIgnoringCase: the lemmas state that an occurrence in any letter case
  is deleted and the scan resumes after it, that a prefix in which the token
  cannot start is kept, and that text without an occurrence is unchanged. No
  single lemma describes the whole result as the leftmost, non-overlapping
  deletion of every occurrence.
- CleanAmountText: what cleaning keeps is stated for a signed number followed
  by an optional unit word, and for commas anywhere. Text with the unit before
  the number (`ETB 600`), or other letters around the number, is covered only
  by the length bound, `ParseAmountNaN` and `ParseAmountReads`.
- ParseFloatPrefix: models an optional sign, digits and an optional fraction,
  or a `.` and fraction digits with no whole part.
  It does not model exponents or `Infinity`.
- ParseAmount: amounts are exact reals, so IEEE rounding is not modelled. A
  NaN numeric input is not modelled either.
- NormalizeCBE: `data.amount || 0` also maps a NaN amount to 0; NaN does not
  exist among reals.
- JsText.LowerChar: lower-cases ASCII letters only. Characters outside ASCII
  are left as they are.
- JsText: strings are sequences of Dafny characters, not UTF-16 code units.
- SecondaryValidator.ReasonText: reals and dates are shown by rendering
  functions passed in, so JavaScript's number and date formatting is not
  modelled. The window hours are shown as a decimal natural number.
- SecondaryValidator.DateWithinWindow: the hours are an exact real quotient,
  not a floating-point one.
- `timestamp` of the canonical record is never set by any mapping and is
  kept as an absent optional field.
