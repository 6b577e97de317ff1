# Certificate controller model

A Dafny model of the reconciler of the Kubernetes operator that issues
self-signed TLS certificates. A `Certificate` resource names a DNS name, a
validity string (`"90d"`, `"72h"`, ...) and a secret reference. One
reconcile pass goes through these steps:

1. It fetches the Certificate.
2. It passes the finalizer gate: on a live object it adds
   `certs.k8c.io/finalizer`, and on a terminating object it releases the
   token and stops.
3. It always generates a fresh key pair and self-signed certificate.
4. It creates the TLS secret when none exists. When the stored one no longer
   holds a current certificate for the spec, it rewrites both PEM entries in
   place. A certificate is current when its common name is the DNS name and
   at least 30 days of validity remain.
5. It reports the outcome in the status:
   - on success, the serial, issuer, validity window and the `Issued` and
     `ReconciliationSuccess` conditions;
   - on failure, a `ReconciliationError` condition carrying the error text.

Modules, one per file:

| file | module | what it holds |
|---|---|---|
| `errors.dfy` | `Errors` | The Go error values the controller passes around, with `pkg/errors` wrapping and `strconv` error texts. |
| `types.dfy` | `Types` | The API types, as datatypes. Also time and `int64` arithmetic: wrap-around, the saturating `time.Until`, and the one-second resolution of X.509 times. |
| `strconv.dfy` | `Strconv` | `strconv.Atoi` and decimal printing. |
| `stdlib.dfy` | `Stdlib` | The library routines that are not opened up. `time.ParseDuration`, `encoding/pem` and `crypto/x509` are function fields of a `Library` record, and `Library.Lawful()` states what the model assumes of them. `rsa.GenerateKey` and `rand.Int` choose their result nondeterministically. |
| `meta.dfy` | `Meta` | `meta.SetStatusCondition` / `FindStatusCondition` and the `controllerutil` finalizer helpers. |
| `helper.dfy` | `Helper` | `internal/controller/helper.go`: the constants, `parseCustomDuration` (both as written and corrected, see Findings) and `isSecretDataEqual`. |
| `certificate.dfy` | `Certificates` | The value-level parts of `internal/controller/certificate.go`: the template, the secret built, the in-place renewal, the status reported, and what an issued certificate decodes to. |
| `store.dfy` | `Store` | The API server, as a class. It holds maps of Certificates and Secrets and a log of every client call with its outcome. Any call may fail with a transport fault. An Update keeps the stored status and deletion timestamp, and deletes a terminating object left without finalizers. A status Update writes only the status. |
| `controller.dfy` | `Controller` | `CertificateReconciler` (see below). |

`CertificateReconciler` is a class holding a client (`Store.ApiServer`) and
a `Library`. Each Go method becomes a Dafny method that changes the client
and the in-memory objects in place, as the Go code does. Each method also
returns, as a ghost result, the segment of the log it wrote. Its
postcondition ties those calls and the new server state to the old state
through specification predicates:

- `UpsertOutcome`: the outcome of `createOrUpdateSecret`.
- `ManageOutcome`: what `certificateManager` does to the secrets.
- `ReportOutcome`: what the status report does to the Certificates.
- `IssueOutcome`: the two together, what the pass does after the finalizer gate.
- `FetchedOutcome`: what the pass does with the Certificate it fetched,
  to the Certificates and to the Secrets.

The model takes the wall clock as a parameter `now`, read once per pass.

The documented design and the code disagree in a few places. The model
follows the code:

- The secret is addressed by `spec.secretRef.name` in the **Certificate's
  own namespace**. The reference's namespace is never read.
- `isSecretDataEqual` returns `false` on an unreadable certificate rather
  than reporting an error.
- Only a `certificateManager` failure is recorded as a `ReconciliationError`
  condition. A failed fetch, a failed finalizer Update and a failed status
  report are returned or logged without a condition.
- A pass in which the secret is current still generates and discards a key
  pair. It issues three secret Gets and no secret write: the probe in
  `certificateManager`, the Get in `createOrUpdateSecret`, and the read-back
  in `setCertificateStatus`.
- The validity string goes through `parseCustomDuration` as written, whose
  day count wraps around in `int64` (see Findings). The corrected parser is
  a separate definition with its intended properties proved; the controller
  does not use it.

## Model

| member | source | states |
|---|---|---|
| `Errors.WrapIf` | internal/controller/certificate.go:131-136 | `errors.Wrap` keeps a nil error nil. Otherwise the text is `context: cause`. |
| `Errors.EscapeChar` | internal/controller/helper.go:36-39 | The escape `strconv.Quote` writes for one ASCII character in a `NumError` message: a backslash before `"` and `\`, the named or `\xNN` escapes of control characters, and every other character unchanged. |
| `Errors.Escaped` | internal/controller/helper.go:36-39 | The quoted input of a `NumError` message is never shorter than the input, and equals it when no character needs escaping. |
| `Errors.EscapedQuote` | internal/controller/certificate_controller.go:82 | A `"` in otherwise plain text is printed as `\"` and nothing else changes, so the day count `a"b` reaches the ReconciliationError message as `parsing "a\"b"`. |
| `Types.Wrap64` | internal/controller/helper.go:42 | The `time.Duration` product is reduced modulo 2^64 into the `int64` range, and is exact when it fits. |
| `Types.Wrap64Mul` | internal/controller/helper.go:42 | Wrapping the first product of `time.Duration(days) * 24 * time.Hour` does not change the final wrapped result: the expression is the mathematical product reduced into `int64`. |
| `Types.Saturate64` | internal/controller/helper.go:70 | `time.Until` clamps to the `time.Duration` range and is exact inside it. |
| `Types.Seconds` | internal/controller/certificate.go:53 | An X.509 validity instant is the time rounded down to a whole second, at most a second earlier. |
| `Strconv.FormatNat` | internal/controller/certificate.go:223 | `SerialNumber.String()` prints a non-empty string of decimal digits with no leading zero (only zero itself prints as `0`). |
| `Strconv.Atoi` | internal/controller/helper.go:36 | Accepts exactly an optionally signed, non-empty digit string whose value fits `int64`, and returns that value. Otherwise it returns the `strconv.Atoi` error carrying the input: ErrRange when the value is out of range, or when the leading digits alone already exceed 2^64-1 (the overflow is met before any later non-digit), and ErrSyntax otherwise. |
| `Strconv.DigitsValueOfFormatNat` | internal/controller/certificate.go:223 | The printed serial reads back as the serial. |
| `Strconv.AtoiFormatInt` | internal/controller/helper.go:36 | Atoi undoes decimal printing on the whole `int64` range. |
| `Strconv.AtoiOverflowBeforeSyntax` | internal/controller/helper.go:36 | Twenty digits led by 2 or more, then any non-digit (`"99999999999999999999x"`), give ErrRange, not ErrSyntax. |
| `Strconv.AtoiSyntaxBeforeOverflow` | internal/controller/helper.go:36 | A non-digit right after the first digit gives ErrSyntax, whatever follows. |
| `Stdlib.InfoOf` | internal/controller/certificate.go:53 | A self-signed certificate has the template's subject as both subject and issuer, its validity truncated to seconds, and the signing key's public half. |
| `Stdlib.GenerateKey` | internal/controller/certificate.go:41-44 | `rsa.GenerateKey` gives a key of the requested size, or a library error. |
| `Stdlib.RandInt` | internal/controller/certificate.go:97-101 | `rand.Int` gives a value in `[0, max)`, or a library error. |
| `Meta.FindStatusCondition` | internal/controller/certificate.go:203 | Finds a condition exactly when one of the type exists. The one found is in the list and is of that type. |
| `Meta.OtherTypes` | internal/controller/certificate.go:203 | Holds exactly the conditions whose type is not the given one. |
| `Meta.SetStatusCondition` | internal/controller/certificate.go:203 | Appends the condition when its type is absent. Otherwise it merges it into the first condition of its type. The length grows only in the first case. |
| `Meta.SetStatusConditionElements` | internal/controller/certificate.go:203 | Every condition afterwards was there before or is of the new condition's type. |
| `Meta.SetStatusConditionKeepsOthers` | internal/controller/certificate.go:203 | Conditions of other types stay as they were, in the same order. |
| `Meta.SetStatusConditionOnePerType` | internal/controller/certificate.go:203 | The one-condition-per-type invariant is preserved. |
| `Meta.TailOnePerType` | internal/controller/certificate.go:203 | The invariant holds for the tail of a list. |
| `Meta.SetStatusConditionUnique` | internal/controller/certificate.go:203 | Starting from one condition per type, every condition of the type afterwards carries the new status, reason, message and observedGeneration. |
| `Meta.FirstIsOnly` | internal/controller/certificate.go:203 | With one condition per type, any condition of a type is the one `FindStatusCondition` returns. |
| `Meta.AddFinalizer` | internal/controller/certificate_controller.go:115 | Appends the token unless it is present. Afterwards the token is present and the other entries are kept. |
| `Meta.RemoveFinalizer` | internal/controller/certificate_controller.go:126 | Removes every occurrence of the token and keeps every other entry. The list shrinks exactly when the token was present. |
| `Helper.DayCount` | internal/controller/helper.go:35 | `TrimSuffix` returns the prefix that, followed by `"d"`, gives the input. |
| `Helper.ParseCustomDurationAsWritten` | internal/controller/helper.go:31-45 | The code as written. Without the suffix the input goes to `time.ParseDuration`. With it, the result is an error exactly when Atoi fails, and then it is Atoi's error. Otherwise it is the day count times 24h reduced modulo 2^64 into the `int64` range, for every day count: exact when it fits, wrapped when it does not. |
| `Helper.ParseCustomDuration` | internal/controller/helper.go:31-45 | Corrected parser. Without the suffix the input goes to `time.ParseDuration`. A day count Atoi refuses gives Atoi's error and no fallback. An integer prefix gives n×24h exactly when that fits a `time.Duration`. |
| `Helper.ParseDayLiteral` | internal/controller/helper.go:33-42 | `"<n>d"` parses to n days. |
| `Helper.ThirtyDays` | internal/controller/helper.go:33-42 | `"30d"` parses to 720h. |
| `Helper.SeventyTwoHours` | internal/controller/helper.go:44 | `"72h"` goes unchanged to `time.ParseDuration`. |
| `Helper.DayFormIgnoresStandardParser` | internal/controller/helper.go:33-43 | A string ending in `d` never reaches `time.ParseDuration`. This holds for both the as-written and the corrected parser. |
| `Helper.AsWrittenAgreesInRange` | internal/controller/helper.go:42 | The as-written and corrected parsers agree whenever the day count fits. |
| `Helper.DayOverflowWraps` | internal/controller/helper.go:42 | `"106752d"` wraps to a negative duration as written. The corrected parser refuses it. |
| `Helper.IsSecretDataEqual` | internal/controller/helper.go:48-71 | True exactly when `tls.crt` holds a PEM block that parses as a certificate for the DNS name with `notAfter - now >= 30 days`. |
| `Helper.UnreadableSecretNeedsRenewal` | internal/controller/helper.go:49-62 | No `tls.crt`, no PEM block, or an unparsable block means renewal. |
| `Helper.DriftNeedsRenewal` | internal/controller/helper.go:64-66 | A certificate for another common name needs renewal at every instant. |
| `Helper.RenewalBoundary` | internal/controller/helper.go:68-70 | Exactly 30 days left is current. One nanosecond less is not. |
| `Helper.RenewalExamples` | internal/controller/helper.go:68-70 | 31 days left is kept. 29 days left is renewed. |
| `Helper.CurrentEarlier` | internal/controller/helper.go:68-70 | A secret that is current now was current at every earlier instant. |
| `Certificates.NewSecret` | internal/controller/certificate.go:70-80 | The built secret is keyed by `secretRef.name` in the Certificate's namespace. It has type TLS and exactly the two data keys `tls.crt`/`tls.key`, holding the new PEMs. |
| `Certificates.NewSecretIgnoresReferenceNamespace` | internal/controller/certificate.go:71-73 | The secret's namespace is not the reference's namespace when the two differ. |
| `Certificates.Renewed` | internal/controller/certificate.go:180-181 | Both PEM entries are replaced together. Every other entry, the key and the type are kept. |
| `Certificates.IssuedValidityWindow` | internal/controller/certificate.go:103-119 | An issued certificate names the DNS name and spans the validity the as-written parser gives, to within the second lost to truncation. |
| `Certificates.IssuedCertificateIsCurrent` | internal/controller/certificate.go:137-146 | Idempotence under no drift. A certificate issued for the spec keeps `isSecretDataEqual` true, so no renewal happens at any later instant with 30 days (plus a second) left. |
| `Certificates.IssuedCertificateDrifts` | internal/controller/helper.go:64-66 | A certificate issued for another DNS name is renewed. |
| `Certificates.OverflowIssuesExpiredCertificate` | internal/controller/certificate.go:103-119 | With validity `"106752d"` the issued certificate ends before it begins, so it is never current again and every later pass renews it. |
| `Certificates.DecodeStoredCertificate` | internal/controller/certificate.go:212-221 | A failure is the error `failed to decode certificate`, or a parse error wrapped with `failed to parse certificate`. |
| `Certificates.DecodeAgreesWithStoredCertificate` | internal/controller/certificate.go:212-221 | The status reader and the renewal predicate read the same certificate from a secret. |
| `Certificates.WithConditionUpserts` | internal/controller/certificate.go:189-204 | Afterwards exactly one condition of the type exists, with the given status, reason, message and the object's generation. Other types, metadata, spec and the rest of the status are unchanged. |
| `Certificates.ReportedStatusDescribesCertificate` | internal/controller/certificate.go:223-229 | The status holds the decimal serial, issuer common name and validity window, and `Issued=True` and `ReconciliationSuccess=True`, one condition per type. |
| `Controller.FinalizerUpdate` | internal/controller/certificate_controller.go:110-133 | The gate sends an Update exactly when token presence disagrees with liveness. What it sends differs from the object only in its finalizers. |
| `Controller.FinalizerGateEstablishes` | internal/controller/certificate_controller.go:110-133 | After the gate the token is held exactly while the object is live. Other finalizers and all other fields are untouched. |
| `Controller.FinalizerGateIdempotent` | internal/controller/certificate_controller.go:113 | A second gate over the first's result sends nothing. |
| `Controller.FinalizerGateCases` | internal/controller/certificate_controller.go:110-134 | A live object without the token gains it at the end of the list. A live object with it, and a terminating object without it, send nothing. |
| `Controller.ReleasingLastFinalizerDeletes` | internal/controller/certificate_controller.go:124-131 | Releasing the token lets the server delete a terminating object exactly when no other finalizer holds it. |
| `Controller.FetchedOutcomeFrame` | internal/controller/certificate_controller.go:69-96 | However a pass over a fetched Certificate ends, only that Certificate and its own secret can change, and every secret call targets that secret. |
| `Controller.CurrentSecretIsLeftAlone` | internal/controller/certificate.go:25-94 | A secret that is current when the pass reads it is not written: every secret call of `certificateManager` is a Get of it, and the secrets end as they began. |
| `Controller.IssuedSecretIsLeftAlone` | internal/controller/certificate.go:137-146 | Idempotence under no drift, across passes: a later pass over a secret issued for the same spec, with 30 days (plus a second) of its validity left, writes no secret. |
| `Controller.Gated` | internal/controller/certificate_controller.go:116-127 | The gate Update, applied only when it was sent and succeeded, changes no other Certificate. |
| `Controller.CertificateReconciler.Reconcile` | internal/controller/certificate_controller.go:52-97 | See the summary below the table. |
| `Controller.CertificateReconciler.ReconcileFetched` | internal/controller/certificate_controller.go:69-96 | The gate, then, on a live object, `IssueAndReport`, as `FetchedOutcome` states: a successful gate Update is applied to the stored Certificate (and may delete it), a failed one changes nothing and stops the pass. |
| `Controller.CertificateReconciler.IssueAndReport` | internal/controller/certificate_controller.go:78-96 | As `IssueOutcome` states: only the Certificate's own secret changes, the first secret call is a Get of it, and a current secret is only read; a failure changes no secret, is a probe error, an issuance error or a wrapped upsert error, writes `ReconciliationError=True` with reason `ReconcileFailed` and the error text and still returns that error; on success the secret is provisioned and the `setCertificateStatus` report follows, with its error dropped. A status write that succeeds replaces the stored status alone. |
| `Controller.CertificateReconciler.Report` | internal/controller/certificate_controller.go:80-94 | As `ReportOutcome` states: after a failure, one status Update with `ReconciliationError`; after a success, `setCertificateStatus`. No secret changes. |
| `Controller.CertificateReconciler.HandleFinalizer` | internal/controller/certificate_controller.go:106-135 | The object becomes `AfterGate` of what it was. At most one Update is sent, exactly when the token must be added or released. An Update failure gives `finished=false` with that error. Otherwise `finished` is exactly "being deleted". |
| `Controller.CertificateReconciler.CertificateTemplate` | internal/controller/certificate.go:96-126 | On success: subject `{k8c self-sign certificate, dnsName}`, sole SAN `dnsName`, a serial below 2^128, `notBefore = now`, `notAfter = now + parsed validity`. A validity that does not parse gives an error. Random or parse failures are wrapped with their context. |
| `Controller.CertificateReconciler.SelfSign` | internal/controller/certificate.go:40-67 | Under the library laws, the PEMs decode to a certificate issued for the spec and its 2048-bit key. Failures carry one of the three step contexts. |
| `Controller.CertificateReconciler.CertificateManager` | internal/controller/certificate.go:25-94 | The first call is a Get of the secret. A non-NotFound error is returned unchanged, with no write. Otherwise a fresh secret is issued and `createOrUpdateSecret` runs on it, with its error wrapped; a failed issuance returns its step error with no further call. |
| `Controller.CertificateReconciler.ManagerEstablishes` | internal/controller/certificate.go:25-94 | What `CertificateManager` promises amounts to `ManageOutcome`: only the secret's key changes, a failure changes no secret and names its step, a current secret is only read, and success leaves it provisioned. |
| `Controller.CertificateReconciler.ProvisionedAfterUpsert` | internal/controller/certificate.go:128-148 | After `createOrUpdateSecret` only the secret's key changes. Success leaves the secret provisioned, a failure or a single Get leaves the store as it was, and a current secret gets the single Get only. |
| `Controller.CertificateReconciler.CreateOrUpdateSecret` | internal/controller/certificate.go:128-148 | As `UpsertOutcome` states. NotFound means the secret is absent and is created. Another Get error is wrapped, with no write. A current secret causes no write. Otherwise there is one renewal Update, each error wrapped with its step. |
| `Controller.CertificateReconciler.RenewCertificate` | internal/controller/certificate.go:150-187 | Both PEM entries are replaced by freshly issued ones and the other entries are kept. Exactly one Update is issued, or none when issuance fails. |
| `Controller.CertificateReconciler.SetConditionStatus` | internal/controller/certificate.go:189-204 | The object becomes `WithCondition` of what it was. |
| `Controller.CertificateReconciler.SetCertificateStatus` | internal/controller/certificate.go:206-236 | Reads the secret back. A Get, decode or parse failure returns an error before the status is touched. Otherwise the status becomes `ReportedStatus` and one status Update is sent, its error wrapped. |
| `Store.UpdatedCertificate` | internal/controller/certificate_controller.go:116 | The API server keeps the stored status and deletion timestamp. It takes the sent spec and finalizers, and bumps the generation on a spec change. |
| `Store.ApplyCertificateUpdate` | internal/controller/certificate_controller.go:127 | Only the sent key changes. The object is deleted exactly when it is terminating and left without finalizers. |
| `Store.ApplyStatusUpdate` | internal/controller/certificate_controller.go:82 | A status write keeps the set of Certificates, the stored metadata and spec, and every other object, and takes the sent status. |
| `Store.ApiServer.GetCertificate` | internal/controller/certificate_controller.go:58 | A success fills the object with the stored Certificate. A failure leaves it untouched and is NotFound or a fault. |
| `Store.ApiServer.UpdateCertificate` | internal/controller/certificate_controller.go:116 | Models `client.Update` through `ApplyCertificateUpdate`. It is logged, and a failure changes nothing. |
| `Store.ApiServer.UpdateCertificateStatus` | internal/controller/certificate_controller.go:82 | `Status().Update` writes only the status, through `ApplyStatusUpdate`. |
| `Store.ApiServer.GetSecret` | internal/controller/certificate.go:29 | A success fills the object with the stored Secret. A failure leaves it untouched. |
| `Store.ApiServer.CreateSecret` | internal/controller/certificate.go:131 | Adds the secret under its own key, or fails with AlreadyExists or a fault. |
| `Store.ApiServer.UpdateSecret` | internal/controller/certificate.go:183 | Replaces the stored secret, or fails with NotFound or a fault. |
| `Store.ApiServer.constructor` | internal/controller/certificate_controller.go:58 | A server over well-keyed maps is valid, holds those maps and has an empty log. |

`Controller.CertificateReconciler.Reconcile` states the following:

- A NotFound fetch returns success with no further call.
- Any other Get error is returned unchanged.
- A gate error or a finished gate stops the pass before any secret call and returns the gate's error, or none.
- Otherwise the pass goes on as `IssueOutcome` states for the gated object, and the result is error-free exactly when `certificateManager` succeeded.
- The fetched Certificate takes the gate's Update when that succeeds, and then the status written when that succeeds; nothing else changes it.
- Only the requested Certificate and its secret can change.
- The log holds exactly the pass's calls, in order.

## Left out

- Cryptography. RSA key generation, `x509.CreateCertificate`, PKCS#1 marshalling and PEM encoding are function fields of `Stdlib.Library`. Their behaviour is assumed only through `Library.Lawful()`: PEM and PKCS#1 round trips, and a self-signed certificate parsing back to its template. The key size and randomness are not otherwise modelled.
- The grammar of `time.ParseDuration`. It is an uninterpreted field `parseDuration` of `Library`.
- The clock. `time.Now` and `time.Until` read one parameter `now` per pass. Every clock read of a pass (the template's notBefore, the condition timestamps, `time.Until`) is taken to read the same instant.
- The Kubernetes client. It is an in-memory `ApiServer`. Its transport faults are nondeterministic. Resource versions, conflicts, watches, caching and admission are not modelled. The object a write returns is not copied back into the caller's object; only the Get calls fill objects.
- `controllerutil.SetControllerReference` and owner references. The code only logs their failure, and the owner chain and cascade deletion belong to the API server.
- Logging, `SetupWithManager`, RBAC markers and scheme registration. They are wiring.
- `ctrl.Result`. The pass always returns an empty one.
- Concurrency, requeue and back-off, which controller-runtime owns.
- `meta.SetStatusCondition` beyond its upsert-by-type contract. `Merge` keeps the old lastTransitionTime when the status is unchanged. The nil-versus-empty conditions distinction at internal/controller/certificate.go:199-201 is not observable once the list is modelled as a sequence.
- `Certificates.NewTemplate` and `Certificates.WithCondition`: these are constructions, and their properties are stated by `CertificateTemplate`, `IssuedValidityWindow`, `WithConditionUpserts` and `ReportedStatusDescribesCertificate`.
- `Certificates.ReportedStatus`: a construction; its properties are stated by `ReportedStatusDescribesCertificate`.
- `Certificates.SecretKey`: a construction; its properties are stated by `NewSecret` and `NewSecretIgnoresReferenceNamespace`.
- `Helper.StoredCertificate` and `Helper.CertificateOf`: the decoding steps of `isSecretDataEqual`; their properties are stated by `IsSecretDataEqual` and `DecodeAgreesWithStoredCertificate`.
- `Types.Until`: `time.Until` as `Saturate64(t - now)`; its properties are stated by `Saturate64` and `IsSecretDataEqual`.
- `Errors.Text`: the printing of an error; its properties are stated by `WrapIf`, `Escaped` and `EscapedQuote`.
- `Errors.IsNotFound`: `apierrors.IsNotFound`, a test of the error's reason; its properties are stated by the `Store.ApiServer` methods' ensures (NotFound exactly for an absent object) and used by `UpsertOutcome` and `Reconcile`.
- `Store.NotFoundError`, `Store.AlreadyExistsError` and `Store.IsFault`: the API server's error values; their properties are stated by the `Store.ApiServer` methods.
- `Helper.HasDaySuffix`: `strings.HasSuffix(s, "d")`; its properties are stated by `DayCount`, `ParseCustomDurationAsWritten` and `ParseCustomDuration`.
- `Types.IsZero`: `Time.IsZero()`; its properties are stated by `ApplyCertificateUpdate`, `FinalizerUpdate` and `HandleFinalizer`.
- `Strconv.IsDigit`, `Strconv.AllDigits`, `Strconv.Unsigned`, `Strconv.LeadingDigits`, `Strconv.IsDecimalInteger`, `Strconv.DecimalValue` and `Strconv.DigitsValue`: the reading of a decimal string; their properties are stated by `Atoi`, `AtoiFormatInt`, `AtoiOverflowBeforeSyntax` and `AtoiSyntaxBeforeOverflow`.
- `Certificates.KeyOf`, `Certificates.IsIssuedSecret`, `Certificates.IsRenewalOf`, `Certificates.Provisioned`, `Controller.IssuanceError` and `Store.Request.TargetsSecret`: the predicates the method contracts are written in; their properties are stated by `IssuedValidityWindow`, `IssuedCertificateIsCurrent`, `SelfSign`, `ProvisionedAfterUpsert` and `FetchedOutcomeFrame`.
- `Meta.Merge`: the update of an existing condition; its properties are stated by `SetStatusCondition`, `SetStatusConditionUnique` and `SetStatusConditionKeepsOthers`.
- `Meta.ContainsFinalizer`: membership in the finalizer list; its properties are stated by `AddFinalizer`, `RemoveFinalizer` and `FinalizerGateEstablishes`.
- `Controller.BeingDeleted` and `Controller.AfterGate`: the gate's predicate and result; their properties are stated by `FinalizerUpdate`, `FinalizerGateEstablishes`, `FinalizerGateCases` and `HandleFinalizer`.
- `Controller.CertificateReconciler.RenewCertificate` does not model the Go panic of assigning into a nil `Data` map. A stored secret whose Data is nil would panic at internal/controller/certificate.go:180; the model's data is always a map.
- Secret type validation by the API server, and the `Type` of an existing secret being anything other than what was stored.
- Serial numbers, times and conditions are compared as values.
- `Errors.Text` quotes a `NumError` input the way `strconv.Quote` does for ASCII text, but copies every non-ASCII character unchanged. `strconv.Quote` escapes non-printable Unicode characters and invalid UTF-8 bytes as `\u`/`\x` sequences, so for a validity string holding such a character the ReconciliationError message (internal/controller/certificate_controller.go:82) differs from Go's. The API error texts (`NotFoundError`, `AlreadyExistsError`) print the object name unquoted; object names are DNS subdomain names, which never need escaping.

## Findings

| source | as written | input that shows it | evidently intended | confidence | as-written member | corrected member |
|---|---|---|---|---|---|---|
| internal/controller/helper.go:42 | `time.Duration(days) * 24 * time.Hour` multiplies in `int64` and wraps silently for day counts above 106751 | `"106752d"` gives a negative validity (about -292 years), so the certificate is issued already expired | a day count whose length overflows `time.Duration` is refused, as `time.ParseDuration` refuses an out-of-range literal | not executed | `Helper.DayOverflowWraps` | `Helper.ParseCustomDuration` |

The controller follows the code: `CertificateTemplate`, `SelfSign`,
`CertificateManager`, `RenewCertificate` and `IssuedFor` use
`ParseCustomDurationAsWritten`, and `Certificates.OverflowIssuesExpiredCertificate`
shows what that does to an issued certificate. `Helper.ParseCustomDuration`
is the corrected definition; `Helper.AsWrittenAgreesInRange` shows that the
two differ only on day counts that overflow.
