/**
 * Whole-pipeline consequences: a collector result is normalised and then judged
 * against the shipped receiver profiles and configuration.
 */
module EndToEnd {
  import opened Optional
  import opened JsText
  import opened CollectorResults
  import opened NormalizedTypes
  import opened ReceiverProfiles
  import opened Normalizer
  import opened SecondaryValidator

  /** The CBE account of the shipped table, digit by digit. */
  lemma CBEAccountSelfMatch()
    ensures AccountsMatchSpec(Some("1000356042704"), Some("1000356042704"), 6) == Some(true)
  {
    var account := "1000356042704";
    assert AllDigits(account) by {
      forall i | 0 <= i < 13 ensures IsDigit(account[i]) { }
    }
    AccountsMatchDigitsSelf(account, 6);
  }

  /** The checks of a CBE result for `amount` ETB to the profile account, one hour old, against 500. */
  lemma CBEChecks(data: CBEVerifyResult, amount: real, now: int)
    requires data.success && data.amount == Some(amount) && data.receiverAccount == Some("1000356042704")
    requires data.date == Some(now - 3600000)
    ensures Verdict(NormalizeCBE(data, now), 500.0, "cbe", Profiles, Config, now).checks
      == ValidationChecks(amount >= 499.0, Some(true), None, true)
  {
    var n := NormalizeCBE(data, now);
    assert n.amount == amount && n.receiver_account == Some("1000356042704") && n.date == Instant(now - 3600000);
    var profile := ProfileFor(Profiles, "cbe");
    assert profile == ReceiverProfile(None, Some("1000356042704"));
    var c := Verdict(n, 500.0, "cbe", Profiles, Config, now).checks;
    VerdictRunsEveryCheck(n, 500.0, "cbe", Profiles, Config, now);
    assert c.amount_match == (amount >= 499.0);
    assert c.receiver_name_match == None;
    assert c.receiver_account_match == Some(true) by {
      CBEAccountSelfMatch();
    }
    assert c.date_within_window by {
      DateWithinWindowIff(now - 3600000, 24, now);
    }
  }

  /**
   * A successful CBE result for 500 ETB to the profile account, one hour old,
   * passes every check that applies; the name check does not apply.
   */
  lemma CBEPaymentPasses(data: CBEVerifyResult, now: int)
    requires data.success && data.amount == Some(500.0) && data.receiverAccount == Some("1000356042704")
    requires data.date == Some(now - 3600000)
    ensures var v := Verdict(NormalizeCBE(data, now), 500.0, "cbe", Profiles, Config, now);
      && v.passed && v.failed_reasons == []
      && v.checks == ValidationChecks(true, Some(true), None, true)
  {
    var n := NormalizeCBE(data, now);
    CBEChecks(data, 500.0, now);
    VerdictSummary(n, 500.0, "cbe", Profiles, Config, now);
    var v := Verdict(n, 500.0, "cbe", Profiles, Config, now);
    assert v.passed by {
      assert Passes(v.checks);
    }
  }

  /** The same payment for 480 ETB fails only the amount check, citing the minimum 499. */
  lemma CBEUnderpaymentFails(data: CBEVerifyResult, now: int)
    requires data.success && data.amount == Some(480.0) && data.receiverAccount == Some("1000356042704")
    requires data.date == Some(now - 3600000)
    ensures var v := Verdict(NormalizeCBE(data, now), 500.0, "cbe", Profiles, Config, now);
      && !v.passed
      && v.checks == ValidationChecks(false, Some(true), None, true)
      && v.failed_reasons == [AmountTooLow(499.0, 480.0)]
  {
    var n := NormalizeCBE(data, now);
    CBEChecks(data, 480.0, now);
    var v := Verdict(n, 500.0, "cbe", Profiles, Config, now);
    var profile := ProfileFor(Profiles, "cbe");
    assert v.failed_reasons == ReasonsFrom(0, v.checks, n, 500.0, profile, 1.0, 6, 24);
    ReasonsFromUnrolled(v.checks, n, 500.0, profile, 1.0, 6, 24);
  }

  /** A Telebirr receipt settling `600.00 Birr` parses to 600 and meets an expected 600. */
  lemma TelebirrSettledAmountMatches(receipt: TelebirrReceipt, reference: string, now: int, parse: string -> Timestamp)
    requires receipt.settledAmount == "600" + "." + "00" + " Birr"
    ensures NormalizeTelebirr(Some(receipt), reference, now, parse).amount == 600.0
    ensures Verdict(NormalizeTelebirr(Some(receipt), reference, now, parse), 600.0, "telebirr", Profiles, Config, now)
      .checks.amount_match
  {
    ParseAmountTelebirrExample();
  }

  /** The masked Abyssinia account `***816408` against the profile account `138816408`. */
  lemma AbyssiniaAccountMatch()
    ensures AccountsMatchSpec(Some("***" + "816408"), Some("138816408"), 6) == Some(true)
  {
    var tail := "816408";
    assert "138" + tail == "138816408";
    assert AllDigits(tail) by {
      forall i | 0 <= i < 6 ensures IsDigit(tail[i]) { }
    }
    assert forall i :: 0 <= i < 3 ==> IsWildcard("***"[i]);
    assert forall i :: 0 <= i < 3 ==> !IsFormatting("138"[i]);
    AccountsMatchMaskedTail("***", "138", tail);
  }

  /**
   * An Abyssinia receipt showing the account as `***816408` matches the profile
   * account `138816408`: the last six characters of both are `816408`.
   */
  lemma AbyssiniaMaskedAccountMatches(data: AbyssiniaVerifyResult, now: int, parse: string -> Timestamp)
    requires data.success && data.receiverAccount == Some("***" + "816408")
    ensures Verdict(NormalizeAbyssinia(data, now, parse), 0.0, "abyssinia", Profiles, Config, now)
      .checks.receiver_account_match == Some(true)
  {
    var n := NormalizeAbyssinia(data, now, parse);
    assert n.receiver_account == Some("***" + "816408");
    assert ProfileFor(Profiles, "abyssinia").receiver_account == Some("138816408");
    AbyssiniaAccountMatch();
    VerdictRunsEveryCheck(n, 0.0, "abyssinia", Profiles, Config, now);
  }

  /** A transaction two days old is outside the 24-hour window, so the verdict fails with a date reason. */
  lemma TwoDayOldDateFails(normalized: NormalizedVerifierResponse, expectedAmount: real, paymentMethod: string, now: int)
    requires normalized.date == Instant(now - 2 * 24 * 3600000)
    ensures var v := Verdict(normalized, expectedAmount, paymentMethod, Profiles, Config, now);
      && !v.checks.date_within_window && !v.passed
      && v.failed_reasons[|v.failed_reasons| - 1] == DateOutsideWindow(24, normalized.date)
  {
    DateWithinWindowIff(now - 2 * 24 * 3600000, 24, now);
    VerdictSummary(normalized, expectedAmount, paymentMethod, Profiles, Config, now);
    var v := Verdict(normalized, expectedAmount, paymentMethod, Profiles, Config, now);
    var profile := ProfileFor(Profiles, paymentMethod);
    assert ChecksFor(normalized, expectedAmount, profile, 1.0, 6, 24, now) == v.checks;
    ReasonsFromUnrolled(v.checks, normalized, expectedAmount, profile, 1.0, 6, 24);
  }
}
