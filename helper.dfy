/** internal/controller/helper.go: the controller's constants, the
    validity-string parser and the renewal predicate. */
module Helper {
  import opened Errors
  import opened Types
  import opened Strconv
  import opened Stdlib

  const DaySuffix: string := "d"
  const FinalizerName: string := "certs.k8c.io/finalizer"
  const DefaultKeySize: nat := 2048

  const TypeCertificateIssued: string := "Issued"
  const TypeReconcileError: string := "ReconciliationError"
  const ReconcileFailed: string := "ReconcileFailed"
  const TypeReconcileSuccess: string := "ReconciliationSuccess"
  const ReconcileCompleted: string := "ReconcileCompleted"

  const Success: string := "Success"
  const CertificateIssued: string := "Successfully Issued Certificate"
  const ReconcileCompletedMessage: string := "Reconcile Completed Successfully"

  /** A certificate is renewed once fewer than 30 days of validity remain. */
  const RenewalThreshold: int := 30 * Day

  /** strings.HasSuffix(s, "d"). */
  predicate HasDaySuffix(s: string)
  {
    |s| > 0 && s[|s| - 1] == 'd'
  }

  /** strings.TrimSuffix(s, "d") on a string that has the suffix. */
  function DayCount(s: string): (p: string)
    requires HasDaySuffix(s)
    ensures p + DaySuffix == s
  {
    s[..|s| - 1]
  }

  /** parseCustomDuration exactly as written: the day count is multiplied
      in time.Duration (int64) arithmetic, which wraps around silently. */
  function ParseCustomDurationAsWritten(lib: Library, s: string): (r: Result<Duration>)
    ensures !HasDaySuffix(s) ==> r == lib.parseDuration(s)
    ensures HasDaySuffix(s) ==> (r.Ok? <==> Atoi(DayCount(s)).Ok?)
    ensures HasDaySuffix(s) && Atoi(DayCount(s)).Err? ==> r.error == Atoi(DayCount(s)).error
    ensures HasDaySuffix(s) && r.Ok? ==> r.value == Wrap64(Atoi(DayCount(s)).value * Day)
    ensures HasDaySuffix(s) && r.Ok? && MinInt64 <= Atoi(DayCount(s)).value * Day <= MaxInt64 ==>
              r.value == Atoi(DayCount(s)).value * Day
  {
    if HasDaySuffix(s) then
      match Atoi(DayCount(s))
      case Err(e) => Err(e)
      case Ok(days) =>
        Wrap64Mul(days * 24, Hour);
        Ok(Wrap64(Wrap64(days * 24) * Hour))
    else
      lib.parseDuration(s)
  }

  /** parseCustomDuration as intended: "<n>d" is n whole days, and a day
      count whose length in nanoseconds does not fit a time.Duration is
      refused, as time.ParseDuration refuses an out-of-range literal. Any
      other string goes, unchanged, to time.ParseDuration. */
  function ParseCustomDuration(lib: Library, s: string): (r: Result<Duration>)
    ensures !HasDaySuffix(s) ==> r == lib.parseDuration(s)
    ensures HasDaySuffix(s) && Atoi(DayCount(s)).Err? ==> r == Err(Atoi(DayCount(s)).error)
    ensures HasDaySuffix(s) && r.Ok? ==>
              IsDecimalInteger(DayCount(s)) && r.value == DecimalValue(DayCount(s)) * Day
    ensures HasDaySuffix(s) && IsDecimalInteger(DayCount(s)) ==>
              (r.Ok? <==> MinInt64 <= DecimalValue(DayCount(s)) * Day <= MaxInt64)
  {
    if HasDaySuffix(s) then
      match Atoi(DayCount(s))
      case Err(e) => Err(e)
      case Ok(days) =>
        if days * Day < MinInt64 || days * Day > MaxInt64 then
          Err(Plain("time: invalid duration \"" + s + "\""))
        else
          Ok(days * Day)
    else
      lib.parseDuration(s)
  }

  /** "<n>d", with n printed in decimal, parses to n days. */
  lemma ParseDayLiteral(lib: Library, n: int)
    requires MinInt64 <= n * Day <= MaxInt64
    ensures ParseCustomDuration(lib, FormatInt(n) + DaySuffix) == Ok(n * Day)
  {
    var s := FormatInt(n) + DaySuffix;
    assert HasDaySuffix(s) && DayCount(s) == FormatInt(n);
    AtoiFormatInt(n);
  }

  /** "30d" is 720 hours. */
  lemma ThirtyDays(lib: Library)
    ensures ParseCustomDuration(lib, "30d") == Ok(720 * Hour)
  {
    assert FormatInt(30) + DaySuffix == "30d";
    ParseDayLiteral(lib, 30);
  }

  /** "72h" is handed to time.ParseDuration as it is. */
  lemma SeventyTwoHours(lib: Library)
    ensures ParseCustomDuration(lib, "72h") == lib.parseDuration("72h")
  {
  }

  /** A string ending in "d" never reaches time.ParseDuration: its result
      is the same whatever that parser does. */
  lemma DayFormIgnoresStandardParser(lib1: Library, lib2: Library, s: string)
    requires HasDaySuffix(s)
    ensures ParseCustomDuration(lib1, s) == ParseCustomDuration(lib2, s)
    ensures ParseCustomDurationAsWritten(lib1, s) == ParseCustomDurationAsWritten(lib2, s)
  {
  }

  /** Within the time.Duration range the code as written and the intended
      parser agree. */
  lemma AsWrittenAgreesInRange(lib: Library, s: string)
    requires HasDaySuffix(s) ==> Atoi(DayCount(s)).Ok? ==> MinInt64 <= Atoi(DayCount(s)).value * Day <= MaxInt64
    ensures ParseCustomDurationAsWritten(lib, s) == ParseCustomDuration(lib, s)
  {
  }

  /** "106752d" is one day more than a time.Duration holds: the code as
      written turns it into a negative duration, about 292 years before
      the certificate's notBefore; the intended parser refuses it. */
  lemma DayOverflowWraps(lib: Library)
    ensures ParseCustomDurationAsWritten(lib, "106752d") == Ok(-9223371273709551616)
    ensures ParseCustomDuration(lib, "106752d").Err?
  {
    var s := "106752d";
    assert DayCount(s) == FormatInt(106752) by {
      assert FormatInt(106752) == "106752";
    }
    AtoiFormatInt(106752);
    assert Wrap64(106752 * 24) == 2562048;
  }

  /** The certificate stored under tls.crt, if the entry exists, is a PEM
      block, and parses as X.509. */
  function StoredCertificate(lib: Library, secret: Secret): Option<CertInfo>
  {
    if TLSCertKey in secret.data then CertificateOf(lib, secret.data[TLSCertKey]) else None
  }

  /** pem.Decode followed by x509.ParseCertificate on the block's bytes;
      the block's type is not inspected. */
  function CertificateOf(lib: Library, pemBytes: Bytes): Option<CertInfo>
  {
    match lib.pemDecode(pemBytes)
    case None => None
    case Some(block) =>
      match lib.parseCertificate(block.bytes)
      case Err(_) => None
      case Ok(info) => Some(info)
  }

  /** isSecretDataEqual: the stored secret still holds a readable
      certificate for the requested DNS name with at least 30 days left;
      `now` is the clock reading of time.Until. */
  function IsSecretDataEqual(lib: Library, config: Certificate, secret: Secret, now: Time): (r: bool)
    ensures r <==> StoredCertificate(lib, secret).Some?
                   && StoredCertificate(lib, secret).value.subject.commonName == config.spec.dnsName
                   && StoredCertificate(lib, secret).value.notAfter - now >= RenewalThreshold
  {
    if TLSCertKey !in secret.data then false
    else
      match lib.pemDecode(secret.data[TLSCertKey])
      case None => false
      case Some(block) =>
        match lib.parseCertificate(block.bytes)
        case Err(_) => false
        case Ok(cert) =>
          if cert.subject.commonName != config.spec.dnsName then false
          else Until(cert.notAfter, now) >= RenewalThreshold
  }

  /** A secret without a tls.crt entry, or whose entry is not a PEM block,
      or whose block is not a certificate, always needs renewal. */
  lemma UnreadableSecretNeedsRenewal(lib: Library, config: Certificate, secret: Secret, now: Time)
    requires TLSCertKey !in secret.data
          || lib.pemDecode(secret.data[TLSCertKey]).None?
          || lib.parseCertificate(lib.pemDecode(secret.data[TLSCertKey]).value.bytes).Err?
    ensures !IsSecretDataEqual(lib, config, secret, now)
  {
  }

  /** A certificate for another DNS name needs renewal however long it is
      still valid. */
  lemma DriftNeedsRenewal(lib: Library, config: Certificate, secret: Secret)
    requires StoredCertificate(lib, secret).Some?
    requires StoredCertificate(lib, secret).value.subject.commonName != config.spec.dnsName
    ensures forall now :: !IsSecretDataEqual(lib, config, secret, now)
  {
  }

  /** Exactly 30 days left counts as current; one nanosecond less does not. */
  lemma RenewalBoundary(lib: Library, config: Certificate, secret: Secret)
    requires StoredCertificate(lib, secret).Some?
    requires StoredCertificate(lib, secret).value.subject.commonName == config.spec.dnsName
    ensures var notAfter := StoredCertificate(lib, secret).value.notAfter;
      IsSecretDataEqual(lib, config, secret, notAfter - RenewalThreshold)
      && !IsSecretDataEqual(lib, config, secret, notAfter - RenewalThreshold + 1)
  {
  }

  /** With 31 days left a matching certificate is kept; with 29 it is renewed. */
  lemma RenewalExamples(lib: Library, config: Certificate, secret: Secret, now: Time)
    requires StoredCertificate(lib, secret).Some?
    requires StoredCertificate(lib, secret).value.subject.commonName == config.spec.dnsName
    ensures StoredCertificate(lib, secret).value.notAfter == now + 31 * Day ==> IsSecretDataEqual(lib, config, secret, now)
    ensures StoredCertificate(lib, secret).value.notAfter == now + 29 * Day ==> !IsSecretDataEqual(lib, config, secret, now)
  {
  }

  /** A secret that is current now was current at every earlier instant. */
  lemma CurrentEarlier(lib: Library, config: Certificate, secret: Secret, earlier: Time, now: Time)
    requires earlier <= now
    requires IsSecretDataEqual(lib, config, secret, now)
    ensures IsSecretDataEqual(lib, config, secret, earlier)
  {
  }
}
