/** The reconciler of internal/controller/certificate_controller.go and
    the methods of internal/controller/certificate.go: one pass over a
    Certificate, against the API server of module Store. Every client call
    of a pass lands in the server's log; each method hands back, as a ghost
    result, the segment of the log it wrote. */
module Controller {
  import opened Errors
  import opened Types
  import opened Stdlib
  import opened Meta
  import opened Helper
  import opened Certificates
  import opened Store

  /** !DeletionTimestamp.IsZero(). */
  predicate BeingDeleted(c: Certificate)
  {
    !IsZero(c.metadata.deletionTimestamp)
  }

  /** The Certificate HandleFinalizer sends with client.Update, if it sends
      one: the token is added to a live object that lacks it and removed
      from a terminating object that has it. */
  function FinalizerUpdate(c: Certificate): (r: Option<Certificate>)
    ensures r.Some? <==> (ContainsFinalizer(c.metadata.finalizers, FinalizerName) <==> BeingDeleted(c))
    ensures r.Some? ==> r.value == c.(metadata := c.metadata.(finalizers := r.value.metadata.finalizers))
  {
    if !BeingDeleted(c) then
      if !ContainsFinalizer(c.metadata.finalizers, FinalizerName) then
        Some(c.(metadata := c.metadata.(finalizers := AddFinalizer(c.metadata.finalizers, FinalizerName))))
      else None
    else if ContainsFinalizer(c.metadata.finalizers, FinalizerName) then
      Some(c.(metadata := c.metadata.(finalizers := RemoveFinalizer(c.metadata.finalizers, FinalizerName))))
    else None
  }

  /** The in-memory Certificate after HandleFinalizer, whether or not its
      Update reached the server. */
  function AfterGate(c: Certificate): Certificate
  {
    match FinalizerUpdate(c)
    case Some(w) => w
    case None => c
  }

  /** The gate's invariant: afterwards the token is held exactly while the
      object is live; every other finalizer, and everything outside the
      finalizer list, is as it was. */
  lemma FinalizerGateEstablishes(c: Certificate)
    ensures var w := AfterGate(c);
      && w == c.(metadata := c.metadata.(finalizers := w.metadata.finalizers))
      && (ContainsFinalizer(w.metadata.finalizers, FinalizerName) <==> !BeingDeleted(w))
      && (forall g :: g != FinalizerName ==> (g in w.metadata.finalizers <==> g in c.metadata.finalizers))
  {
  }

  /** The gate is idempotent: a second pass over what the first sent sends
      nothing. */
  lemma FinalizerGateIdempotent(c: Certificate)
    ensures FinalizerUpdate(AfterGate(c)).None?
  {
  }

  /** A live object gains the token at the end of its list; a live object
      that has it, and a terminating object that lacks it, cause no write. */
  lemma FinalizerGateCases(c: Certificate)
    ensures !BeingDeleted(c) && FinalizerName !in c.metadata.finalizers ==>
              FinalizerUpdate(c).Some?
              && FinalizerUpdate(c).value.metadata.finalizers == c.metadata.finalizers + [FinalizerName]
    ensures !BeingDeleted(c) && FinalizerName in c.metadata.finalizers ==> FinalizerUpdate(c).None?
    ensures BeingDeleted(c) && FinalizerName !in c.metadata.finalizers ==> FinalizerUpdate(c).None?
  {
  }

  /** On a terminating object, removing the token lets the API server
      delete the object exactly when no other finalizer holds it. */
  lemma ReleasingLastFinalizerDeletes(m: map<ObjectKey, Certificate>, c: Certificate)
    requires c.Key() in m && m[c.Key()] == c
    requires BeingDeleted(c) && FinalizerName in c.metadata.finalizers
    ensures FinalizerUpdate(c).Some?
    ensures c.Key() !in ApplyCertificateUpdate(m, FinalizerUpdate(c).value) <==>
              forall g :: g in c.metadata.finalizers ==> g == FinalizerName
  {
    var w := FinalizerUpdate(c).value;
    var fs := w.metadata.finalizers;
    if fs != [] {
      assert fs[0] in fs && fs[0] != FinalizerName;
    }
  }

  /** The errors the self-signing steps report, wrapped with the step
      that failed. */
  predicate IssuanceError(e: Error)
  {
    && e.Wrapped?
    && e.context in {"Failed to generate private key", "Failed to generate certificate template",
                     "Failed to create certificate"}
  }

  /** The outcome of createOrUpdateSecret for config, with sent the secret
      it was handed, before and after the secrets of the API server, seg
      the calls it made and err what it returned. */
  ghost predicate UpsertOutcome(lib: Library, config: Certificate, now: Time, sent: Secret,
                                before: map<ObjectKey, Secret>, after: map<ObjectKey, Secret>,
                                seg: seq<Exchange>, err: Option<Error>)
  {
    var k := SecretKey(config);
    && 1 <= |seg| <= 2
    && seg[0].request == SecretGet(k)
    && match seg[0].response
       case Some(e) =>
         if IsNotFound(e) then
           // the secret does not exist: create the one handed in
           && k !in before
           && |seg| == 2 && seg[1].request == SecretCreate(sent)
           && err == WrapIf("creating secret object failed", seg[1].response)
           && after == (if seg[1].response.None? then before[sent.Key() := sent] else before)
         else
           && |seg| == 1 && err == Some(Wrapped("getting secret object failed", e))
           && after == before
       case None =>
         && k in before
         && if IsSecretDataEqual(lib, config, before[k], now) then
              // current: nothing is written
              && |seg| == 1 && err.None? && after == before
            else if |seg| == 1 then
              // renewal failed before its Update
              && err.Some? && err.value.Wrapped? && err.value.context == "renewing secret object failed"
              && IssuanceError(err.value.cause) && after == before
            else
              && seg[1].request.SecretUpdate?
              && IsRenewalOf(lib, config.spec, now, before[k], seg[1].request.secret)
              && err == WrapIf("renewing secret object failed", WrapIf("Failed to update secret", seg[1].response))
              && after == (if seg[1].response.None? then before[k := seg[1].request.secret] else before)
  }

  /** What certificateManager does to the secrets of the API server
      (before, after) for the Certificate config: its calls (manage) touch
      only config's secret, starting with its Get, and write nothing when
      that secret is already current; when they fail (err) no secret has
      changed and err says which step failed; otherwise the secret holds
      a current certificate. */
  ghost predicate ManageOutcome(lib: Library, config: Certificate, now: Time,
                                before: map<ObjectKey, Secret>, after: map<ObjectKey, Secret>,
                                manage: seq<Exchange>, err: Option<Error>)
  {
    var k := SecretKey(config);
    && after - {k} == before - {k}
    && 1 <= |manage| && manage[0].request == SecretGet(k)
    && (forall i :: 0 <= i < |manage| ==> manage[i].request.TargetsSecret(k))
    && (k in before && IsSecretDataEqual(lib, config, before[k], now) ==>
          after == before && forall i :: 0 <= i < |manage| ==> manage[i].request == SecretGet(k))
    && (err.Some? ==>
          && after == before
          && (|| (|manage| == 1 && (IssuanceError(err.value) || (err == manage[0].response && !IsNotFound(err.value))))
              || (|manage| > 1 && err.value.Wrapped? && err.value.context == "Failed to create or update secret")))
    && (err.None? ==> k in after && Provisioned(lib, config, now, after[k]))
  }

  /** What Reconcile reports in the status of config once
      certificateManager has returned err, with the Certificates of the
      API server before and after and its secrets as they then are: on a
      failure the ReconciliationError condition is written; otherwise
      setCertificateStatus reads the secret back and, when its
      certificate decodes, writes the reported status (report). A status
      write that succeeds replaces the stored status and nothing else. */
  ghost predicate ReportOutcome(lib: Library, config: Certificate, now: Time,
                                certsBefore: map<ObjectKey, Certificate>, certsAfter: map<ObjectKey, Certificate>,
                                secrets: map<ObjectKey, Secret>, report: seq<Exchange>, err: Option<Error>)
  {
    var k := SecretKey(config);
    && (err.Some? ==>
          var failed := WithCondition(config, TypeReconcileError, ConditionTrue, ReconcileFailed, Text(err.value), now);
          && |report| == 1
          && report[0].request == CertificateStatusUpdate(failed)
          && (report[0].response.None? ==> failed.Key() in certsBefore && certsAfter == ApplyStatusUpdate(certsBefore, failed))
          && (report[0].response.Some? ==> certsAfter == certsBefore))
    && (err.None? ==>
          && 1 <= |report| <= 2 && report[0].request == SecretGet(k)
          && (report[0].response.None? ==> k in secrets)
          && (|report| == 2 <==> report[0].response.None? && DecodeStoredCertificate(lib, secrets[k]).Ok?)
          && (|report| == 1 ==> certsAfter == certsBefore)
          && (|report| == 2 ==>
                var reported := ReportedStatus(config, DecodeStoredCertificate(lib, secrets[k]).value, now);
                && report[1].request == CertificateStatusUpdate(reported)
                && (report[1].response.None? ==>
                      reported.Key() in certsBefore && certsAfter == ApplyStatusUpdate(certsBefore, reported))
                && (report[1].response.Some? ==> certsAfter == certsBefore)))
  }

  /** What Reconcile does after the finalizer gate: certificateManager,
      then the status report. */
  ghost predicate IssueOutcome(lib: Library, config: Certificate, now: Time,
                               certsBefore: map<ObjectKey, Certificate>, certsAfter: map<ObjectKey, Certificate>,
                               before: map<ObjectKey, Secret>, after: map<ObjectKey, Secret>,
                               manage: seq<Exchange>, report: seq<Exchange>, err: Option<Error>)
  {
    && ManageOutcome(lib, config, now, before, after, manage, err)
    && ReportOutcome(lib, config, now, certsBefore, certsAfter, after, report, err)
  }

  /** The Certificates after the finalizer gate: its Update, when it was
      sent and succeeded, is applied (and may delete the object). */
  function Gated(certs: map<ObjectKey, Certificate>, c: Certificate, gate: seq<Exchange>): (r: map<ObjectKey, Certificate>)
    requires c.Key() in certs
    ensures r - {c.Key()} == certs - {c.Key()}
    ensures !(gate != [] && gate[0].response.None?) ==> r == certs
  {
    if gate != [] && gate[0].response.None? then ApplyCertificateUpdate(certs, AfterGate(c)) else certs
  }

  /** What a pass does with a Certificate c it has fetched from certsBefore:
      the finalizer gate's one Update (gate) when the token has to be
      added or released, applied to the stored object when it succeeds;
      a pass that stops there, on a failed Update or on a terminating
      object, leaves the secrets and everything else alone; otherwise the
      pass goes on as IssueOutcome says, for the gated object. */
  ghost predicate FetchedOutcome(lib: Library, c: Certificate, now: Time,
                                 certsBefore: map<ObjectKey, Certificate>, certsAfter: map<ObjectKey, Certificate>,
                                 before: map<ObjectKey, Secret>, after: map<ObjectKey, Secret>,
                                 exit: Exit, err: Option<Error>,
                                 gate: seq<Exchange>, manage: seq<Exchange>, report: seq<Exchange>)
  {
    && c.Key() in certsBefore
    && exit != Gone && exit != FetchFailed
    && (FinalizerUpdate(c).None? ==> gate == [])
    && (FinalizerUpdate(c).Some? ==> |gate| == 1 && gate[0].request == CertificateUpdate(AfterGate(c)))
    && (exit == GateFailed <==> gate != [] && gate[0].response.Some?)
    && (exit == GateFinished <==> exit != GateFailed && BeingDeleted(c))
    && (exit == GateFailed || exit == GateFinished ==>
          && manage == [] && report == [] && after == before
          && certsAfter == Gated(certsBefore, c, gate)
          && err == (if exit == GateFailed then gate[0].response else None))
    && (exit == IssueFailed || exit == Issued ==>
          && !BeingDeleted(c)
          && (exit == Issued <==> err.None?)
          && IssueOutcome(lib, AfterGate(c), now, Gated(certsBefore, c, gate), certsAfter,
                          before, after, manage, report, err))
  }

  /** Whatever way a pass over c ends, only c itself and c's own secret
      can have changed. */
  lemma FetchedOutcomeFrame(lib: Library, c: Certificate, now: Time,
                            certsBefore: map<ObjectKey, Certificate>, certsAfter: map<ObjectKey, Certificate>,
                            before: map<ObjectKey, Secret>, after: map<ObjectKey, Secret>,
                            exit: Exit, err: Option<Error>,
                            gate: seq<Exchange>, manage: seq<Exchange>, report: seq<Exchange>)
    requires FetchedOutcome(lib, c, now, certsBefore, certsAfter, before, after, exit, err, gate, manage, report)
    ensures certsAfter - {c.Key()} == certsBefore - {c.Key()}
    ensures after - {SecretKey(c)} == before - {SecretKey(c)}
    ensures forall i :: 0 <= i < |manage| ==> manage[i].request.TargetsSecret(SecretKey(c))
  {
  }

  /** A secret that is current when the pass reads it is not written:
      certificateManager only reads it, whatever else fails. */
  lemma CurrentSecretIsLeftAlone(lib: Library, c: Certificate, now: Time,
                                 certsBefore: map<ObjectKey, Certificate>, certsAfter: map<ObjectKey, Certificate>,
                                 before: map<ObjectKey, Secret>, after: map<ObjectKey, Secret>,
                                 exit: Exit, err: Option<Error>,
                                 gate: seq<Exchange>, manage: seq<Exchange>, report: seq<Exchange>)
    requires FetchedOutcome(lib, c, now, certsBefore, certsAfter, before, after, exit, err, gate, manage, report)
    requires SecretKey(c) in before && IsSecretDataEqual(lib, c, before[SecretKey(c)], now)
    ensures after == before
    ensures forall i :: 0 <= i < |manage| ==> manage[i].request == SecretGet(SecretKey(c))
  {
  }

  /** Idempotence under no drift: once a pass has issued a certificate
      for c's spec, a later pass over the same spec, early enough to
      leave 30 days (and the rounding second) of its validity, writes no
      secret. */
  lemma IssuedSecretIsLeftAlone(lib: Library, c: Certificate, issuedAt: Time, now: Time,
                                certsBefore: map<ObjectKey, Certificate>, certsAfter: map<ObjectKey, Certificate>,
                                before: map<ObjectKey, Secret>, after: map<ObjectKey, Secret>,
                                exit: Exit, err: Option<Error>,
                                gate: seq<Exchange>, manage: seq<Exchange>, report: seq<Exchange>)
    requires FetchedOutcome(lib, c, now, certsBefore, certsAfter, before, after, exit, err, gate, manage, report)
    requires SecretKey(c) in before
    requires var s := before[SecretKey(c)];
      && TLSCertKey in s.data && TLSPrivateKeyKey in s.data
      && IssuedFor(lib, c.spec, issuedAt, s.data[TLSCertKey], s.data[TLSPrivateKeyKey])
      && now + RenewalThreshold + Second <= issuedAt + ParseCustomDurationAsWritten(lib, c.spec.validity).value
    ensures after == before
    ensures forall i :: 0 <= i < |manage| ==> manage[i].request == SecretGet(SecretKey(c))
  {
    IssuedCertificateIsCurrent(lib, c, issuedAt, before[SecretKey(c)], now);
    CurrentSecretIsLeftAlone(lib, c, now, certsBefore, certsAfter, before, after, exit, err, gate, manage, report);
  }

  /** How a pass ended. */
  datatype Exit = Gone | FetchFailed | GateFailed | GateFinished | IssueFailed | Issued

  /** The calls of one pass, phase by phase: the fetch of the Certificate,
      the finalizer gate, certificateManager, and the status report. */
  datatype Trace = Trace(fetch: Exchange, gate: seq<Exchange>, manage: seq<Exchange>, report: seq<Exchange>)
  {
    function All(): seq<Exchange>
    {
      [fetch] + (gate + (manage + report))
    }
  }

  class CertificateReconciler {
    const client: ApiServer
    const lib: Library

    constructor (client: ApiServer, lib: Library)
      ensures this.client == client && this.lib == lib
    {
      this.client := client;
      this.lib := lib;
    }

    /** Reconcile: fetch the Certificate; pass the finalizer gate; make
        sure its secret holds a current certificate; report the outcome
        in the status. `now` is the clock reading of the pass. The
        reconcile.Result is always empty and is not modelled. */
    method Reconcile(req: ObjectKey, now: Time) returns (err: Option<Error>, ghost exit: Exit, ghost trace: Trace)
      requires client.Valid()
      modifies client
      ensures client.Valid()
      ensures client.log == old(client.log) + trace.All()
      ensures trace.fetch.request == CertificateGet(req)
      ensures client.certificates - {req} == old(client.certificates) - {req}
      ensures exit == Gone <==> trace.fetch.response.Some? && IsNotFound(trace.fetch.response.value)
      ensures exit == FetchFailed <==> trace.fetch.response.Some? && !IsNotFound(trace.fetch.response.value)
      ensures exit == Gone || exit == FetchFailed ==>
                && trace.gate == [] && trace.manage == [] && trace.report == []
                && client.certificates == old(client.certificates) && client.secrets == old(client.secrets)
                && err == (if exit == Gone then None else trace.fetch.response)
      ensures trace.fetch.response.None? ==>
                && req in old(client.certificates)
                && FetchedOutcome(lib, old(client.certificates)[req], now, old(client.certificates), client.certificates,
                                  old(client.secrets), client.secrets, exit, err, trace.gate, trace.manage, trace.report)
    {
      var config := new CertificateObject();
      var getErr := client.GetCertificate(req, config);
      var fetch := Exchange(CertificateGet(req), getErr);
      if getErr.Some? {
        if IsNotFound(getErr.value) {
          return None, Gone, Trace(fetch, [], [], []);
        }
        return getErr, FetchFailed, Trace(fetch, [], [], []);
      }
      assert config.Value().Key() == req;
      ghost var gate, manage, report;
      err, exit, gate, manage, report := ReconcileFetched(config, now);
      LogAppend(old(client.log), [fetch], gate + (manage + report));
      trace := Trace(fetch, gate, manage, report);
    }

    /** Reconcile once the Certificate is fetched into config: the
        finalizer gate, then IssueAndReport on a live object. */
    method ReconcileFetched(config: CertificateObject, now: Time)
      returns (err: Option<Error>, ghost exit: Exit, ghost gate: seq<Exchange>,
               ghost manage: seq<Exchange>, ghost report: seq<Exchange>)
      requires client.Valid()
      requires config.Value().Key() in client.certificates
      modifies config, client
      ensures client.Valid()
      ensures client.log == old(client.log) + (gate + (manage + report))
      ensures FetchedOutcome(lib, old(config.Value()), now, old(client.certificates), client.certificates,
                             old(client.secrets), client.secrets, exit, err, gate, manage, report)
    {
      ghost var c := config.Value();
      var finished, gateErr;
      finished, gateErr, gate := HandleFinalizer(config);
      assert config.Value().Key() == c.Key();
      ghost var certificates1 := client.certificates;
      if gateErr.Some? {
        return gateErr, GateFailed, gate, [], [];
      }
      if finished {
        return None, GateFinished, gate, [], [];
      }
      assert config.Value() == AfterGate(c);
      ghost var secrets1 := client.secrets;
      err, manage, report := IssueAndReport(config, now);
      assert IssueOutcome(lib, AfterGate(c), now, certificates1, client.certificates,
                          secrets1, client.secrets, manage, report, err);
      LogAppend(old(client.log), gate, manage + report);
      exit := if err.Some? then IssueFailed else Issued;
    }

    /** Reconcile after the finalizer gate: certificateManager, then the
        status report. err is certificateManager's error. */
    method IssueAndReport(config: CertificateObject, now: Time)
      returns (err: Option<Error>, ghost manage: seq<Exchange>, ghost report: seq<Exchange>)
      requires client.Valid()
      modifies config, client
      ensures client.Valid()
      ensures client.log == old(client.log) + (manage + report)
      ensures config.Value().Key() == old(config.Value()).Key()
      ensures IssueOutcome(lib, old(config.Value()), now, old(client.certificates), client.certificates,
                           old(client.secrets), client.secrets, manage, report, err)
    {
      var secret := new SecretObject();
      ghost var secrets0 := client.secrets;
      ghost var probe, issued, upsert, upsertErr;
      err, probe, issued, upsert, upsertErr := CertificateManager(config, secret, now);
      manage := [probe] + upsert;
      ManagerEstablishes(config.Value(), now, secrets0, client.secrets, probe, issued, upsert, upsertErr, err);
      LogAppend(old(client.log), [probe], upsert);
      report := Report(config, secret, err, now);
      LogAppend(old(client.log), manage, report);
    }

    /** The report step of Reconcile: on certificateManager's error err,
        the ReconciliationError condition written to the status, and
        otherwise setCertificateStatus, whose error is only logged. */
    method Report(config: CertificateObject, secret: SecretObject, err: Option<Error>, now: Time)
      returns (ghost report: seq<Exchange>)
      requires client.Valid()
      modifies config, secret, client
      ensures client.Valid() && client.secrets == old(client.secrets)
      ensures client.log == old(client.log) + report
      ensures config.Value().Key() == old(config.Value()).Key()
      ensures ReportOutcome(lib, old(config.Value()), now, old(client.certificates), client.certificates,
                            client.secrets, report, err)
    {
      if err.Some? {
        SetConditionStatus(config, ConditionTrue, TypeReconcileError, ReconcileFailed, Text(err.value), now);
        var statusErr := client.UpdateCertificateStatus(config);
        report := [Exchange(CertificateStatusUpdate(config.Value()), statusErr)];
      } else {
        var statusErr;
        statusErr, report := SetCertificateStatus(config, secret, now);
      }
    }

    /** HandleFinalizer: keep the token on a live Certificate and release
        it from a terminating one. `finished` says the object is
        terminating and the pass is over. */
    method HandleFinalizer(config: CertificateObject) returns (finished: bool, err: Option<Error>, ghost seg: seq<Exchange>)
      requires client.Valid()
      modifies config, client
      ensures client.Valid() && client.secrets == old(client.secrets)
      ensures client.log == old(client.log) + seg
      ensures config.Value() == AfterGate(old(config.Value()))
      ensures client.certificates - {old(config.Value()).Key()} == old(client.certificates) - {old(config.Value()).Key()}
      ensures FinalizerUpdate(old(config.Value())).None? ==>
                seg == [] && err.None? && client.certificates == old(client.certificates)
      ensures FinalizerUpdate(old(config.Value())).Some? ==>
                && seg == [Exchange(CertificateUpdate(config.Value()), err)]
                && (err.None? ==> config.Value().Key() in old(client.certificates)
                                  && client.certificates == ApplyCertificateUpdate(old(client.certificates), config.Value()))
                && (err.Some? ==> client.certificates == old(client.certificates))
      ensures err.Some? ==> !finished
      ensures err.None? ==> (finished <==> BeingDeleted(old(config.Value())))
    {
      seg := [];
      err := None;
      if !BeingDeleted(config.Value()) {
        if !ContainsFinalizer(config.metadata.finalizers, FinalizerName) {
          config.metadata := config.metadata.(finalizers := AddFinalizer(config.metadata.finalizers, FinalizerName));
          err := client.UpdateCertificate(config);
          seg := [Exchange(CertificateUpdate(config.Value()), err)];
          if err.Some? {
            return false, err, seg;
          }
        }
      } else {
        if ContainsFinalizer(config.metadata.finalizers, FinalizerName) {
          config.metadata := config.metadata.(finalizers := RemoveFinalizer(config.metadata.finalizers, FinalizerName));
          err := client.UpdateCertificate(config);
          seg := [Exchange(CertificateUpdate(config.Value()), err)];
          if err.Some? {
            return false, err, seg;
          }
        }
        return true, None, seg;
      }
      finished := false;
    }

    /** certificateTemplate: a random serial below 2^128 and a validity
        window starting now. */
    method CertificateTemplate(spec: CertificateSpec, now: Time) returns (r: Result<Template>)
      ensures r.Ok? ==> ParseCustomDurationAsWritten(lib, spec.validity).Ok?
      ensures r.Ok? ==>
                exists serial: nat ::
                  serial < SerialLimit
                  && r.value == NewTemplate(spec, serial, now, ParseCustomDurationAsWritten(lib, spec.validity).value)
      ensures ParseCustomDurationAsWritten(lib, spec.validity).Err? ==> r.Err?
      ensures r.Err? ==> r.error.Wrapped?
                         && (|| r.error.context == "Failed to generate serial number"
                             || (&& ParseCustomDurationAsWritten(lib, spec.validity).Err?
                                 && r.error == Wrapped("Failed to parse validity duration",
                                                       ParseCustomDurationAsWritten(lib, spec.validity).error)))
    {
      var serial := RandInt(SerialLimit);
      if serial.Err? {
        return Err(Wrapped("Failed to generate serial number", serial.error));
      }
      var notBefore := now;
      var validity := ParseCustomDurationAsWritten(lib, spec.validity);
      if validity.Err? {
        return Err(Wrapped("Failed to parse validity duration", validity.error));
      }
      r := Ok(NewTemplate(spec, serial.value, notBefore, validity.value));
    }

    /** The self-signing steps certificateManager and renewCertificate
        share: a 2048-bit key, the template, the signature, and the PEM
        encoding of certificate and key. */
    method SelfSign(spec: CertificateSpec, now: Time) returns (r: Result<(Bytes, Bytes)>)
      ensures r.Ok? && lib.Lawful() ==> IssuedFor(lib, spec, now, r.value.0, r.value.1)
      ensures ParseCustomDurationAsWritten(lib, spec.validity).Err? ==> r.Err?
      ensures r.Err? ==> IssuanceError(r.error)
    {
      var key := GenerateKey(DefaultKeySize);
      if key.Err? {
        return Err(Wrapped("Failed to generate private key", key.error));
      }
      var template := CertificateTemplate(spec, now);
      if template.Err? {
        return Err(Wrapped("Failed to generate certificate template", template.error));
      }
      var der := lib.createCertificate(template.value, key.value);
      if der.Err? {
        return Err(Wrapped("Failed to create certificate", der.error));
      }
      var certPEM := lib.pemEncode(PemBlock(CertificateBlock, der.value));
      var keyPEM := lib.pemEncode(PemBlock(RsaPrivateKeyBlock, lib.marshalPKCS1PrivateKey(key.value)));
      r := Ok((certPEM, keyPEM));
    }

    /** certificateManager: read the secret, issue a fresh certificate and
        key, and hand the secret built around them to
        createOrUpdateSecret. */
    method CertificateManager(config: CertificateObject, secret: SecretObject, now: Time)
      returns (err: Option<Error>, ghost probe: Exchange, ghost issued: Secret,
               ghost upsert: seq<Exchange>, ghost upsertErr: Option<Error>)
      requires client.Valid()
      modifies secret, client
      ensures client.Valid() && client.certificates == old(client.certificates)
      ensures client.log == old(client.log) + [probe] + upsert
      ensures probe.request == SecretGet(SecretKey(config.Value()))
      ensures probe.response.Some? && !IsNotFound(probe.response.value) ==> upsert == [] && err == probe.response
      ensures upsert == [] ==> err.Some? && client.secrets == old(client.secrets)
      ensures upsert == [] && (probe.response.None? || IsNotFound(probe.response.value)) ==> IssuanceError(err.value)
      ensures ParseCustomDurationAsWritten(lib, config.spec.validity).Err? ==> upsert == []
      ensures upsert != [] ==>
                && IsIssuedSecret(lib, config.Value(), now, issued)
                && UpsertOutcome(lib, config.Value(), now, issued, old(client.secrets), client.secrets, upsert, upsertErr)
                && err == WrapIf("Failed to create or update secret", upsertErr)
    {
      var k := ObjectKey(config.metadata.namespace, config.spec.secretRef.name);
      var getErr := client.GetSecret(k, secret);
      probe := Exchange(SecretGet(k), getErr);
      upsert := [];
      if getErr.Some? && !IsNotFound(getErr.value) {
        return getErr, probe, EmptySecret, upsert, None;
      }
      var pair := SelfSign(config.spec, now);
      if pair.Err? {
        return Some(pair.error), probe, EmptySecret, upsert, None;
      }
      issued := NewSecret(config.Value(), pair.value.0, pair.value.1);
      var newSecret := new SecretObject.Of(NewSecret(config.Value(), pair.value.0, pair.value.1));
      var upsertResult;
      upsertResult, upsert := CreateOrUpdateSecret(config, newSecret, now);
      upsertErr := upsertResult;
      err := WrapIf("Failed to create or update secret", upsertResult);
    }

    /** certificateManager's contract, put together, is ManageOutcome. */
    lemma ManagerEstablishes(config: Certificate, now: Time,
                             before: map<ObjectKey, Secret>, after: map<ObjectKey, Secret>,
                             probe: Exchange, issued: Secret, upsert: seq<Exchange>,
                             upsertErr: Option<Error>, err: Option<Error>)
      requires forall k :: k in before ==> before[k].Key() == k
      requires probe.request == SecretGet(SecretKey(config))
      requires probe.response.Some? && !IsNotFound(probe.response.value) ==> upsert == [] && err == probe.response
      requires upsert == [] ==> err.Some? && after == before
      requires upsert == [] && (probe.response.None? || IsNotFound(probe.response.value)) ==> IssuanceError(err.value)
      requires upsert != [] ==>
                 && IsIssuedSecret(lib, config, now, issued)
                 && UpsertOutcome(lib, config, now, issued, before, after, upsert, upsertErr)
                 && err == WrapIf("Failed to create or update secret", upsertErr)
      ensures ManageOutcome(lib, config, now, before, after, [probe] + upsert, err)
    {
      if upsert != [] {
        ProvisionedAfterUpsert(config, now, issued, before, after, upsert, upsertErr);
      }
    }

    /** What UpsertOutcome guarantees for the secret handed in by
        certificateManager: only its key changes, and a success leaves it
        provisioned. Every call is addressed to that key. */
    lemma ProvisionedAfterUpsert(config: Certificate, now: Time, sent: Secret,
                                 before: map<ObjectKey, Secret>, after: map<ObjectKey, Secret>,
                                 seg: seq<Exchange>, err: Option<Error>)
      requires forall k :: k in before ==> before[k].Key() == k
      requires IsIssuedSecret(lib, config, now, sent)
      requires UpsertOutcome(lib, config, now, sent, before, after, seg, err)
      ensures var k := SecretKey(config);
        && after - {k} == before - {k}
        && (forall i :: 0 <= i < |seg| ==> seg[i].request.TargetsSecret(k))
        && (err.None? ==> k in after && Provisioned(lib, config, now, after[k]))
        && (err.Some? ==> after == before)
        && (|seg| == 1 ==> after == before)
        && (k in before && IsSecretDataEqual(lib, config, before[k], now) ==> |seg| == 1)
    {
      var k := SecretKey(config);
      assert sent.Key() == k;
      if seg[0].response.None? && k in before {
        assert before[k].Key() == k;
      }
    }

    /** createOrUpdateSecret: create the secret handed in when none exists;
        renew the existing one when it no longer holds a current
        certificate for the spec. */
    method CreateOrUpdateSecret(config: CertificateObject, secret: SecretObject, now: Time)
      returns (err: Option<Error>, ghost seg: seq<Exchange>)
      requires client.Valid()
      modifies secret, client
      ensures client.Valid() && client.certificates == old(client.certificates)
      ensures client.log == old(client.log) + seg
      ensures UpsertOutcome(lib, config.Value(), now, old(secret.Value()), old(client.secrets), client.secrets, seg, err)
    {
      ghost var sent := secret.Value();
      var k := ObjectKey(config.metadata.namespace, config.spec.secretRef.name);
      var getErr := client.GetSecret(k, secret);
      seg := [Exchange(SecretGet(k), getErr)];
      if getErr.Some? && IsNotFound(getErr.value) {
        var createErr := client.CreateSecret(secret);
        LogAppend(old(client.log), seg, [Exchange(SecretCreate(sent), createErr)]);
        seg := seg + [Exchange(SecretCreate(sent), createErr)];
        err := WrapIf("creating secret object failed", createErr);
      } else if getErr.Some? {
        err := Some(Wrapped("getting secret object failed", getErr.value));
      } else {
        if !IsSecretDataEqual(lib, config.Value(), secret.Value(), now) {
          var renewErr, renew := RenewCertificate(config, secret, now);
          LogAppend(old(client.log), seg, renew);
          seg := seg + renew;
          err := WrapIf("renewing secret object failed", renewErr);
        } else {
          err := None;
        }
      }
    }

    /** renewCertificate: issue a fresh certificate and key, write both
        into the secret's data, and update the secret. */
    method RenewCertificate(config: CertificateObject, secret: SecretObject, now: Time)
      returns (err: Option<Error>, ghost seg: seq<Exchange>)
      requires client.Valid()
      modifies secret, client
      ensures client.Valid() && client.certificates == old(client.certificates)
      ensures client.log == old(client.log) + seg
      ensures |seg| <= 1
      ensures ParseCustomDurationAsWritten(lib, config.spec.validity).Err? ==> seg == []
      ensures seg == [] ==> err.Some? && IssuanceError(err.value) && unchanged(secret)
                            && client.secrets == old(client.secrets)
      ensures |seg| == 1 ==>
                && seg[0].request == SecretUpdate(secret.Value())
                && IsRenewalOf(lib, config.spec, now, old(secret.Value()), secret.Value())
                && err == WrapIf("Failed to update secret", seg[0].response)
                && client.secrets == (if seg[0].response.None? then old(client.secrets)[secret.Value().Key() := secret.Value()]
                                      else old(client.secrets))
    {
      var pair := SelfSign(config.spec, now);
      if pair.Err? {
        return Some(pair.error), [];
      }
      secret.data := secret.data[TLSCertKey := pair.value.0];
      secret.data := secret.data[TLSPrivateKeyKey := pair.value.1];
      var updateErr := client.UpdateSecret(secret);
      seg := [Exchange(SecretUpdate(secret.Value()), updateErr)];
      err := WrapIf("Failed to update secret", updateErr);
    }

    /** setConditionStatus: upsert one condition of the status, stamped
        with the generation and the clock reading now. */
    method SetConditionStatus(config: CertificateObject, status: ConditionStatus, condType: string,
                              reason: string, message: string, now: Time)
      modifies config
      ensures config.Value() == WithCondition(old(config.Value()), condType, status, reason, message, now)
    {
      var condition := Condition(condType, status, config.metadata.generation, now, reason, message);
      config.status := config.status.(conditions := SetStatusCondition(config.status.conditions, condition));
    }

    /** setCertificateStatus: read the secret back, decode its certificate,
        copy serial, issuer and validity into the status, set the Issued and
        ReconciliationSuccess conditions and write the status. */
    method SetCertificateStatus(config: CertificateObject, secret: SecretObject, now: Time)
      returns (err: Option<Error>, ghost seg: seq<Exchange>)
      requires client.Valid()
      modifies config, secret, client
      ensures client.Valid() && client.secrets == old(client.secrets)
      ensures client.log == old(client.log) + seg
      ensures config.Value().Key() == old(config.Value()).Key()
      ensures client.certificates - {config.Value().Key()} == old(client.certificates) - {config.Value().Key()}
      ensures 1 <= |seg| <= 2 && seg[0].request == SecretGet(SecretKey(old(config.Value())))
      ensures seg[0].response.Some? ==>
                |seg| == 1 && err == Some(Wrapped("Failed to get existing secret", seg[0].response.value))
      ensures seg[0].response.None? ==> SecretKey(old(config.Value())) in client.secrets
      ensures seg[0].response.None? ==>
                var d := DecodeStoredCertificate(lib, client.secrets[SecretKey(old(config.Value()))]);
                && (d.Err? ==> |seg| == 1 && err == Some(d.error))
                && (d.Ok? ==>
                      && |seg| == 2
                      && config.Value() == ReportedStatus(old(config.Value()), d.value, now)
                      && seg[1].request == CertificateStatusUpdate(config.Value())
                      && err == WrapIf("Failed to update status", seg[1].response))
      ensures |seg| == 1 ==> unchanged(config) && client.certificates == old(client.certificates)
      ensures |seg| == 2 && seg[1].response.Some? ==> client.certificates == old(client.certificates)
      ensures |seg| == 2 && seg[1].response.None? ==>
                && config.Value().Key() in old(client.certificates)
                && client.certificates == ApplyStatusUpdate(old(client.certificates), config.Value())
    {
      var k := ObjectKey(config.metadata.namespace, config.spec.secretRef.name);
      var getErr := client.GetSecret(k, secret);
      seg := [Exchange(SecretGet(k), getErr)];
      if getErr.Some? {
        return Some(Wrapped("Failed to get existing secret", getErr.value)), seg;
      }
      var decoded := DecodeStoredCertificate(lib, secret.Value());
      if decoded.Err? {
        return Some(decoded.error), seg;
      }
      var info := decoded.value;
      ghost var c0 := config.Value();
      config.status := config.status.(
        serialNumber := Strconv.FormatNat(info.serialNumber),
        issuer := info.issuer.commonName,
        notBefore := info.notBefore,
        notAfter := info.notAfter);
      SetConditionStatus(config, ConditionTrue, TypeCertificateIssued, Success, CertificateIssued, now);
      SetConditionStatus(config, ConditionTrue, TypeReconcileSuccess, ReconcileCompleted, ReconcileCompletedMessage, now);
      assert config.Value() == ReportedStatus(c0, info, now);
      ghost var certificates0 := client.certificates;
      assert certificates0 == old(client.certificates);
      var updatedErr := client.UpdateCertificateStatus(config);
      LogAppend(old(client.log), seg, [Exchange(CertificateStatusUpdate(config.Value()), updatedErr)]);
      seg := seg + [Exchange(CertificateStatusUpdate(config.Value()), updatedErr)];
      err := WrapIf("Failed to update status", updatedErr);
    }
  }
}
