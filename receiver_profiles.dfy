/**
 * The expected receiver of each payment method and the numeric parameters of the
 * secondary validation, as constant data.
 */
module ReceiverProfiles {
  import opened Optional
  import opened JsText

  /** `ReceiverProfile`: either field may be absent, which disables its check. */
  datatype ReceiverProfile = ReceiverProfile(
    receiver_name: Option<string>,
    receiver_account: Option<string>)

  /** The `{}` the validator falls back to for an unknown payment method. */
  const EmptyProfile := ReceiverProfile(None, None)

  /** `RECEIVER_PROFILES`, keyed by payment method. */
  const Profiles: map<string, ReceiverProfile> := map[
    "telebirr" := ReceiverProfile(Some("Zinet Selman Wabela"), Some("0962071522")),
    "cbe" := ReceiverProfile(None, Some("1000356042704")),
    "dashen" := ReceiverProfile(Some("SOSHA OS PLC"), None),
    "abyssinia" := ReceiverProfile(None, Some("138816408")),
    "cbebirr" := ReceiverProfile(Some("SOSHA OS PLC"), None)
  ]

  /** The shape of `VALIDATION_CONFIG`. */
  datatype ValidationConfig = ValidationConfig(
    timeWindowHours: nat,
    strictNameMatch: bool,
    amountToleranceETB: real,
    receiverAccountSuffixDigits: nat)

  /** `VALIDATION_CONFIG`. */
  const Config := ValidationConfig(
    timeWindowHours := 24,
    strictNameMatch := false,
    amountToleranceETB := 1.0,
    receiverAccountSuffixDigits := 6)

  /** `RECEIVER_PROFILES[paymentMethod] || {}`. */
  function ProfileFor(profiles: map<string, ReceiverProfile>, paymentMethod: string): (p: ReceiverProfile)
    ensures paymentMethod !in profiles ==> p == EmptyProfile
    ensures paymentMethod in profiles ==> p == profiles[paymentMethod]
  {
    if paymentMethod in profiles then profiles[paymentMethod] else EmptyProfile
  }

  /** The five payment methods are exactly the keys of the table. */
  lemma ProfileKeys()
    ensures Profiles.Keys == {"telebirr", "cbe", "dashen", "abyssinia", "cbebirr"}
  {
  }

  /** Telebirr is the one method whose profile fixes both a name and an account. */
  lemma TelebirrProfileHasBoth()
    ensures Present(Profiles["telebirr"].receiver_name)
    ensures Present(Profiles["telebirr"].receiver_account)
    ensures Profiles["telebirr"].receiver_account == Some("0962071522")
  {
  }

  /** CBE and Abyssinia fix only an account. */
  lemma AccountOnlyProfiles(m: string)
    requires m == "cbe" || m == "abyssinia"
    ensures m in Profiles
    ensures Profiles[m].receiver_name == None
    ensures Present(Profiles[m].receiver_account)
  {
  }

  /** Dashen and CBE Birr fix only a name. */
  lemma NameOnlyProfiles(m: string)
    requires m == "dashen" || m == "cbebirr"
    ensures m in Profiles
    ensures Profiles[m].receiver_account == None
    ensures Profiles[m].receiver_name == Some("SOSHA OS PLC")
  {
  }

  /** The configured window, tolerance, suffix length and name-match flag. */
  lemma ConfigValues()
    ensures Config.timeWindowHours == 24
    ensures Config.amountToleranceETB == 1.0
    ensures Config.receiverAccountSuffixDigits == 6
    ensures !Config.strictNameMatch
  {
  }
}
