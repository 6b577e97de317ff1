/** The value-level parts of internal/controller/certificate.go: the
    certificate template, the secret the controller builds, the in-place
    renewal of its data, the status it reports, and what a freshly issued
    certificate and key look like once decoded. */
module Certificates {
  import opened Errors
  import opened Types
  import opened Strconv
  import opened Stdlib
  import opened Meta
  import opened Helper

  const Organization: string := "k8c self-sign certificate"

  /** The exclusive bound of the serial number: 1 << 128. */
  const SerialLimit: nat := 0x1_0000_0000_0000_0000_0000_0000_0000_0000

  /** The key under which the controller reads and writes the secret:
      spec.secretRef.name in the Certificate's own namespace (the
      reference's namespace is never consulted). */
  function SecretKey(config: Certificate): ObjectKey
  {
    ObjectKey(config.metadata.namespace, config.spec.secretRef.name)
  }

  /** The x509.Certificate literal of certificateTemplate. */
  function NewTemplate(spec: CertificateSpec, serial: nat, notBefore: Time, validity: Duration): Template
  {
    Template(serial, Name([Organization], spec.dnsName), SHA256WithRSA, notBefore, notBefore + validity,
             [spec.dnsName], {KeyUsageKeyEncipherment, KeyUsageDigitalSignature}, [ExtKeyUsageServerAuth],
             true, false)
  }

  /** The secret certificateManager builds around a fresh certificate and key. */
  function NewSecret(config: Certificate, certPEM: Bytes, keyPEM: Bytes): (s: Secret)
    ensures s.Key() == SecretKey(config)
    ensures s.data.Keys == {TLSCertKey, TLSPrivateKeyKey}
    ensures s.data[TLSCertKey] == certPEM && s.data[TLSPrivateKeyKey] == keyPEM
    ensures s.secretType == SecretTypeTLS
  {
    Secret(config.metadata.namespace, config.spec.secretRef.name,
           map[TLSCertKey := certPEM, TLSPrivateKeyKey := keyPEM], SecretTypeTLS)
  }

  /** The secret is addressed in the Certificate's namespace even when the
      secret reference names another one. */
  lemma NewSecretIgnoresReferenceNamespace(config: Certificate, certPEM: Bytes, keyPEM: Bytes)
    requires config.spec.secretRef.namespace != config.metadata.namespace
    ensures NewSecret(config, certPEM, keyPEM).namespace != config.spec.secretRef.namespace
  {
  }

  /** renewCertificate's assignments to secret.Data: both PEM entries are
      replaced together and every other entry is kept. */
  function Renewed(stored: Secret, certPEM: Bytes, keyPEM: Bytes): (s: Secret)
    ensures s.Key() == stored.Key() && s.secretType == stored.secretType
    ensures s.data.Keys == stored.data.Keys + {TLSCertKey, TLSPrivateKeyKey}
    ensures s.data[TLSCertKey] == certPEM && s.data[TLSPrivateKeyKey] == keyPEM
    ensures forall k :: k in stored.data && k != TLSCertKey && k != TLSPrivateKeyKey ==> s.data[k] == stored.data[k]
  {
    stored.(data := stored.data[TLSCertKey := certPEM][TLSPrivateKeyKey := keyPEM])
  }

  /** x509.ParsePKCS1PrivateKey on the first PEM block. */
  function KeyOf(lib: Library, pemBytes: Bytes): Option<PrivateKey>
  {
    match lib.pemDecode(pemBytes)
    case None => None
    case Some(block) =>
      match lib.parsePKCS1PrivateKey(block.bytes)
      case Err(_) => None
      case Ok(k) => Some(k)
  }

  /** A certificate and key freshly issued for spec at time now: a
      2048-bit key; a self-signed, non-CA certificate for spec.dnsName
      (subject common name and sole DNS name), bound to that key, with a
      serial below 2^128 and valid from now for the parsed validity (to
      the second). */
  predicate IssuedFor(lib: Library, spec: CertificateSpec, now: Time, certPEM: Bytes, keyPEM: Bytes)
  {
    && ParseCustomDurationAsWritten(lib, spec.validity).Ok?
    && CertificateOf(lib, certPEM).Some?
    && KeyOf(lib, keyPEM).Some?
    && var info := CertificateOf(lib, certPEM).value;
       var key := KeyOf(lib, keyPEM).value;
       && info.subject == Name([Organization], spec.dnsName)
       && info.issuer == info.subject
       && info.dnsNames == [spec.dnsName]
       && info.notBefore == Seconds(now)
       && info.notAfter == Seconds(now + ParseCustomDurationAsWritten(lib, spec.validity).value)
       && info.serialNumber < SerialLimit
       && !info.isCA
       && key.bits == DefaultKeySize
       && info.publicKey == key.Public()
  }

  /** A secret created for config by certificateManager. */
  ghost predicate IsIssuedSecret(lib: Library, config: Certificate, now: Time, s: Secret)
  {
    && TLSCertKey in s.data && TLSPrivateKeyKey in s.data
    && s == NewSecret(config, s.data[TLSCertKey], s.data[TLSPrivateKeyKey])
    && (lib.Lawful() ==> IssuedFor(lib, config.spec, now, s.data[TLSCertKey], s.data[TLSPrivateKeyKey]))
  }

  /** The stored secret after renewCertificate rewrote its data for spec. */
  ghost predicate IsRenewalOf(lib: Library, spec: CertificateSpec, now: Time, stored: Secret, s: Secret)
  {
    && TLSCertKey in s.data && TLSPrivateKeyKey in s.data
    && s == Renewed(stored, s.data[TLSCertKey], s.data[TLSPrivateKeyKey])
    && (lib.Lawful() ==> IssuedFor(lib, spec, now, s.data[TLSCertKey], s.data[TLSPrivateKeyKey]))
  }

  /** The secret under the controller's key once certificateManager has
      succeeded: either it already held a current certificate for the
      spec, or it holds a certificate and key freshly issued for it. */
  ghost predicate Provisioned(lib: Library, config: Certificate, now: Time, s: Secret)
  {
    || IsSecretDataEqual(lib, config, s, now)
    || (&& TLSCertKey in s.data && TLSPrivateKeyKey in s.data
        && (lib.Lawful() ==> IssuedFor(lib, config.spec, now, s.data[TLSCertKey], s.data[TLSPrivateKeyKey])))
  }

  /** The round trip of issuance: the decoded certificate names the
      requested DNS name and spans the parsed validity, within the one
      second the X.509 encoding rounds away. */
  lemma IssuedValidityWindow(lib: Library, spec: CertificateSpec, now: Time, certPEM: Bytes, keyPEM: Bytes)
    requires IssuedFor(lib, spec, now, certPEM, keyPEM)
    ensures var info := CertificateOf(lib, certPEM).value;
      var d := ParseCustomDurationAsWritten(lib, spec.validity).value;
      && info.subject.commonName == spec.dnsName
      && d - Second < info.notAfter - info.notBefore < d + Second
  {
  }

  /** Idempotence under no drift: a freshly issued certificate is still
      current, for the same spec, at every instant that leaves 30 days
      (and the rounding second) of its validity. */
  lemma IssuedCertificateIsCurrent(lib: Library, config: Certificate, now: Time, secret: Secret, later: Time)
    requires TLSCertKey in secret.data && TLSPrivateKeyKey in secret.data
    requires IssuedFor(lib, config.spec, now, secret.data[TLSCertKey], secret.data[TLSPrivateKeyKey])
    requires later + RenewalThreshold + Second <= now + ParseCustomDurationAsWritten(lib, config.spec.validity).value
    ensures IsSecretDataEqual(lib, config, secret, later)
  {
  }

  /** What the wrap-around of the day count does downstream: with the
      validity "106752d" the certificate issued is already expired (its
      notAfter lies about 292 years before its notBefore), so it is
      reported as issued and then renewed again by every later pass. */
  lemma OverflowIssuesExpiredCertificate(lib: Library, config: Certificate, now: Time, secret: Secret, later: Time)
    requires config.spec.validity == "106752d"
    requires TLSCertKey in secret.data && TLSPrivateKeyKey in secret.data
    requires IssuedFor(lib, config.spec, now, secret.data[TLSCertKey], secret.data[TLSPrivateKeyKey])
    requires now <= later
    ensures CertificateOf(lib, secret.data[TLSCertKey]).value.notAfter
            < CertificateOf(lib, secret.data[TLSCertKey]).value.notBefore
    ensures !IsSecretDataEqual(lib, config, secret, later)
  {
    DayOverflowWraps(lib);
  }

  /** A certificate issued for one DNS name is renewed once the spec asks
      for another. */
  lemma IssuedCertificateDrifts(lib: Library, config: Certificate, other: CertificateSpec, now: Time, secret: Secret, later: Time)
    requires TLSCertKey in secret.data && TLSPrivateKeyKey in secret.data
    requires IssuedFor(lib, other, now, secret.data[TLSCertKey], secret.data[TLSPrivateKeyKey])
    requires other.dnsName != config.spec.dnsName
    ensures !IsSecretDataEqual(lib, config, secret, later)
  {
  }

  /** setCertificateStatus's reading of the secret: a missing tls.crt entry
      reads as no bytes; then pem.Decode and x509.ParseCertificate, each
      failure with its own error. */
  function DecodeStoredCertificate(lib: Library, secret: Secret): (r: Result<CertInfo>)
    ensures r.Err? ==> || r.error == Plain("failed to decode certificate")
                       || (r.error.Wrapped? && r.error.context == "failed to parse certificate")
  {
    var pemBytes := if TLSCertKey in secret.data then secret.data[TLSCertKey] else [];
    match lib.pemDecode(pemBytes)
    case None => Err(Plain("failed to decode certificate"))
    case Some(block) =>
      match lib.parseCertificate(block.bytes)
      case Err(e) => Err(Wrapped("failed to parse certificate", e))
      case Ok(info) => Ok(info)
  }

  /** The status reader and the renewal predicate read the secret the same
      way, given that an empty input holds no PEM block. */
  lemma DecodeAgreesWithStoredCertificate(lib: Library, secret: Secret)
    requires lib.pemDecode([]) == None
    ensures DecodeStoredCertificate(lib, secret).Ok? <==> StoredCertificate(lib, secret).Some?
    ensures DecodeStoredCertificate(lib, secret).Ok? ==>
              DecodeStoredCertificate(lib, secret).value == StoredCertificate(lib, secret).value
  {
  }

  /** setConditionStatus on a Certificate value: upsert one condition,
      stamped with the object's generation and the clock reading now. */
  function WithCondition(config: Certificate, condType: string, status: ConditionStatus,
                         reason: string, message: string, now: Time): Certificate
  {
    var c := Condition(condType, status, config.metadata.generation, now, reason, message);
    config.(status := config.status.(conditions := SetStatusCondition(config.status.conditions, c)))
  }

  /** What setConditionStatus promises: on a list with one entry per type,
      exactly one condition of the type exists afterwards, with the given
      status, reason and message and the object's generation; conditions
      of other types, and everything outside the conditions, stay as
      they were. */
  lemma WithConditionUpserts(config: Certificate, condType: string, status: ConditionStatus,
                             reason: string, message: string, now: Time)
    requires OnePerType(config.status.conditions)
    ensures var r := WithCondition(config, condType, status, reason, message, now);
      && r.metadata == config.metadata && r.spec == config.spec
      && r.status == config.status.(conditions := r.status.conditions)
      && OnePerType(r.status.conditions)
      && FindStatusCondition(r.status.conditions, condType).Some?
      && (forall x :: x in r.status.conditions && x.condType == condType ==>
            x.status == status && x.reason == reason && x.message == message
            && x.observedGeneration == config.metadata.generation)
      && OtherTypes(r.status.conditions, condType) == OtherTypes(config.status.conditions, condType)
  {
    var c := Condition(condType, status, config.metadata.generation, now, reason, message);
    SetStatusConditionOnePerType(config.status.conditions, c);
    SetStatusConditionUnique(config.status.conditions, c);
    SetStatusConditionKeepsOthers(config.status.conditions, c);
  }

  /** setCertificateStatus's assignments: serial (in decimal), issuer
      common name and validity window from the certificate, then the
      Issued and ReconciliationSuccess conditions set to True. */
  function ReportedStatus(config: Certificate, info: CertInfo, now: Time): Certificate
  {
    var reported := config.(status := config.status.(
      serialNumber := FormatNat(info.serialNumber),
      issuer := info.issuer.commonName,
      notBefore := info.notBefore,
      notAfter := info.notAfter));
    WithCondition(
      WithCondition(reported, TypeCertificateIssued, ConditionTrue, Success, CertificateIssued, now),
      TypeReconcileSuccess, ConditionTrue, ReconcileCompleted, ReconcileCompletedMessage, now)
  }

  /** The reported status reads back as the certificate's serial, issuer
      and validity window, and carries Issued=True and
      ReconciliationSuccess=True, one entry per type. */
  lemma ReportedStatusDescribesCertificate(config: Certificate, info: CertInfo, now: Time)
    requires OnePerType(config.status.conditions)
    ensures var r := ReportedStatus(config, info, now);
      && r.metadata == config.metadata && r.spec == config.spec
      && AllDigits(r.status.serialNumber) && DigitsValue(r.status.serialNumber) == info.serialNumber
      && r.status.issuer == info.issuer.commonName
      && r.status.notBefore == info.notBefore && r.status.notAfter == info.notAfter
      && OnePerType(r.status.conditions)
      && FindStatusCondition(r.status.conditions, TypeCertificateIssued).Some?
      && FindStatusCondition(r.status.conditions, TypeCertificateIssued).value.status == ConditionTrue
      && FindStatusCondition(r.status.conditions, TypeReconcileSuccess).Some?
      && FindStatusCondition(r.status.conditions, TypeReconcileSuccess).value.status == ConditionTrue
  {
    var reported := config.(status := config.status.(
      serialNumber := FormatNat(info.serialNumber),
      issuer := info.issuer.commonName,
      notBefore := info.notBefore,
      notAfter := info.notAfter));
    DigitsValueOfFormatNat(info.serialNumber);
    WithConditionUpserts(reported, TypeCertificateIssued, ConditionTrue, Success, CertificateIssued, now);
    var first := WithCondition(reported, TypeCertificateIssued, ConditionTrue, Success, CertificateIssued, now);
    WithConditionUpserts(first, TypeReconcileSuccess, ConditionTrue, ReconcileCompleted, ReconcileCompletedMessage, now);
    var r := ReportedStatus(config, info, now);
    var issued := FindStatusCondition(first.status.conditions, TypeCertificateIssued).value;
    assert issued in OtherTypes(first.status.conditions, TypeReconcileSuccess);
    assert issued in r.status.conditions;
    FirstIsOnly(r.status.conditions, TypeCertificateIssued, issued);
  }
}
