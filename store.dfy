/** The Kubernetes API as the controller sees it through its client:
    Certificates and Secrets held by the API server, and the in-memory
    objects the controller reads them into and sends back. Every call is
    recorded, with its outcome, in the server's log; any call may fail
    with a transport fault the controller does not choose. */
module Store {
  import opened Errors
  import opened Types

  /** One call the controller makes through its client. */
  datatype Request =
    | CertificateGet(key: ObjectKey)
    | CertificateUpdate(cert: Certificate)
    | CertificateStatusUpdate(cert: Certificate)
    | SecretGet(key: ObjectKey)
    | SecretCreate(secret: Secret)
    | SecretUpdate(secret: Secret)
  {
    /** The call reads or writes the secret stored under k. */
    predicate TargetsSecret(k: ObjectKey)
    {
      || (SecretGet? && key == k)
      || ((SecretCreate? || SecretUpdate?) && secret.Key() == k)
    }
  }

  /** A call and its outcome: None when it succeeded. */
  datatype Exchange = Exchange(request: Request, response: Option<Error>)

  /** Appending two segments to the log one after the other is appending
      their concatenation. */
  lemma LogAppend(log: seq<Exchange>, a: seq<Exchange>, b: seq<Exchange>)
    ensures log + a + b == log + (a + b)
  {
  }

  /** A failure of the connection or the server, not of the request. */
  predicate IsFault(e: Error)
  {
    e.ApiError? && e.reason == Fault
  }

  function NotFoundError(resource: string, key: ObjectKey): Error
  {
    ApiError(NotFound, resource + " \"" + key.name + "\" not found")
  }

  function AlreadyExistsError(resource: string, key: ObjectKey): Error
  {
    ApiError(AlreadyExists, resource + " \"" + key.name + "\" already exists")
  }

  const CertificateResource: string := "certificates.certs.k8c.io"
  const SecretResource: string := "secrets"

  /** What the API server stores when a Certificate is updated through the
      main resource: the sent metadata and spec, but the stored status and
      deletion timestamp; the generation advances when the spec changes. */
  function UpdatedCertificate(stored: Certificate, sent: Certificate): (u: Certificate)
    ensures u.Key() == sent.Key() && u.spec == sent.spec && u.status == stored.status
    ensures u.metadata.finalizers == sent.metadata.finalizers
    ensures u.metadata.deletionTimestamp == stored.metadata.deletionTimestamp
    ensures u.metadata.generation == stored.metadata.generation + (if sent.spec == stored.spec then 0 else 1)
  {
    sent.(metadata := sent.metadata.(
            generation := stored.metadata.generation + (if sent.spec == stored.spec then 0 else 1),
            deletionTimestamp := stored.metadata.deletionTimestamp),
          status := stored.status)
  }

  /** The certificate map after a successful update: an object that is
      terminating and is left without finalizers is deleted. */
  function ApplyCertificateUpdate(m: map<ObjectKey, Certificate>, sent: Certificate): (r: map<ObjectKey, Certificate>)
    requires sent.Key() in m
    ensures r - {sent.Key()} == m - {sent.Key()}
    ensures sent.Key() !in r <==> !IsZero(m[sent.Key()].metadata.deletionTimestamp) && sent.metadata.finalizers == []
    ensures sent.Key() in r ==> r[sent.Key()] == UpdatedCertificate(m[sent.Key()], sent)
  {
    var u := UpdatedCertificate(m[sent.Key()], sent);
    if !IsZero(u.metadata.deletionTimestamp) && u.metadata.finalizers == [] then m - {sent.Key()}
    else m[sent.Key() := u]
  }

  /** The certificate map after a successful status update: the stored
      object keeps its metadata and spec and takes the sent status. */
  function ApplyStatusUpdate(m: map<ObjectKey, Certificate>, sent: Certificate): (r: map<ObjectKey, Certificate>)
    requires sent.Key() in m
    ensures r.Keys == m.Keys && r - {sent.Key()} == m - {sent.Key()}
    ensures r[sent.Key()].metadata == m[sent.Key()].metadata && r[sent.Key()].spec == m[sent.Key()].spec
    ensures r[sent.Key()].status == sent.status
  {
    m[sent.Key() := m[sent.Key()].(status := sent.status)]
  }

  /** An in-memory Certificate the controller reads into and edits. */
  class CertificateObject {
    var metadata: ObjectMeta
    var spec: CertificateSpec
    var status: CertificateStatus

    function Value(): Certificate
      reads this
    {
      Certificate(metadata, spec, status)
    }

    /** &certsv1.Certificate{}. */
    constructor ()
      ensures Value() == EmptyCertificate
    {
      metadata := EmptyCertificate.metadata;
      spec := EmptyCertificate.spec;
      status := EmptyCertificate.status;
    }
  }

  /** An in-memory Secret. */
  class SecretObject {
    var namespace: string
    var name: string
    var data: map<string, Bytes>
    var secretType: string

    function Value(): Secret
      reads this
    {
      Secret(namespace, name, data, secretType)
    }

    /** &corev1.Secret{}. */
    constructor ()
      ensures Value() == EmptySecret
    {
      namespace, name, data, secretType := "", "", map[], "";
    }

    /** A Secret literal. */
    constructor Of(s: Secret)
      ensures Value() == s
    {
      namespace, name, data, secretType := s.namespace, s.name, s.data, s.secretType;
    }
  }

  /** The API server, with the log of every call made to it. */
  class ApiServer {
    var certificates: map<ObjectKey, Certificate>
    var secrets: map<ObjectKey, Secret>
    var log: seq<Exchange>

    /** Every object is stored under its own namespace and name. */
    ghost predicate Valid()
      reads this
    {
      && (forall k :: k in certificates ==> certificates[k].Key() == k)
      && (forall k :: k in secrets ==> secrets[k].Key() == k)
    }

    constructor (certificates: map<ObjectKey, Certificate>, secrets: map<ObjectKey, Secret>)
      requires forall k :: k in certificates ==> certificates[k].Key() == k
      requires forall k :: k in secrets ==> secrets[k].Key() == k
      ensures Valid()
      ensures this.certificates == certificates && this.secrets == secrets && log == []
    {
      this.certificates, this.secrets, log := certificates, secrets, [];
    }

    /** Whether the transport fails this call, and with what. */
    static method Transport() returns (fault: Option<Error>)
      ensures fault.Some? ==> IsFault(fault.value)
    {
      var failed: bool := *;
      if failed {
        var text: string := *;
        fault := Some(ApiError(Fault, text));
      } else {
        fault := None;
      }
    }

    /** client.Get of a Certificate: on success the object holds the
        stored Certificate; on failure it is left as it was. */
    method GetCertificate(key: ObjectKey, into: CertificateObject) returns (err: Option<Error>)
      requires Valid()
      modifies this, into
      ensures Valid() && certificates == old(certificates) && secrets == old(secrets)
      ensures log == old(log) + [Exchange(CertificateGet(key), err)]
      ensures err.None? ==> key in certificates && into.Value() == certificates[key]
      ensures err.Some? ==> unchanged(into)
      ensures err.Some? ==> IsFault(err.value) || (key !in certificates && err.value == NotFoundError(CertificateResource, key))
      ensures key !in certificates ==> err.Some?
    {
      err := Transport();
      if err.None? {
        if key in certificates {
          var c := certificates[key];
          into.metadata, into.spec, into.status := c.metadata, c.spec, c.status;
        } else {
          err := Some(NotFoundError(CertificateResource, key));
        }
      }
      log := log + [Exchange(CertificateGet(key), err)];
    }

    /** client.Update of a Certificate. */
    method UpdateCertificate(obj: CertificateObject) returns (err: Option<Error>)
      requires Valid()
      modifies this
      ensures Valid() && secrets == old(secrets)
      ensures certificates - {obj.Value().Key()} == old(certificates) - {obj.Value().Key()}
      ensures log == old(log) + [Exchange(CertificateUpdate(obj.Value()), err)]
      ensures err.None? ==> obj.Value().Key() in old(certificates)
                            && certificates == ApplyCertificateUpdate(old(certificates), obj.Value())
      ensures err.Some? ==> certificates == old(certificates)
      ensures err.Some? ==> IsFault(err.value)
                            || (obj.Value().Key() !in certificates
                                && err.value == NotFoundError(CertificateResource, obj.Value().Key()))
      ensures obj.Value().Key() !in old(certificates) ==> err.Some?
    {
      var sent := obj.Value();
      err := Transport();
      if err.None? {
        if sent.Key() in certificates {
          certificates := ApplyCertificateUpdate(certificates, sent);
        } else {
          err := Some(NotFoundError(CertificateResource, sent.Key()));
        }
      }
      log := log + [Exchange(CertificateUpdate(sent), err)];
    }

    /** client.Status().Update of a Certificate: only the status is
        written. */
    method UpdateCertificateStatus(obj: CertificateObject) returns (err: Option<Error>)
      requires Valid()
      modifies this
      ensures Valid() && secrets == old(secrets)
      ensures certificates - {obj.Value().Key()} == old(certificates) - {obj.Value().Key()}
      ensures log == old(log) + [Exchange(CertificateStatusUpdate(obj.Value()), err)]
      ensures err.None? ==> obj.Value().Key() in old(certificates)
                            && certificates == ApplyStatusUpdate(old(certificates), obj.Value())
      ensures err.Some? ==> certificates == old(certificates)
      ensures err.Some? ==> IsFault(err.value)
                            || (obj.Value().Key() !in certificates
                                && err.value == NotFoundError(CertificateResource, obj.Value().Key()))
      ensures obj.Value().Key() !in old(certificates) ==> err.Some?
    {
      var sent := obj.Value();
      err := Transport();
      if err.None? {
        if sent.Key() in certificates {
          certificates := ApplyStatusUpdate(certificates, sent);
        } else {
          err := Some(NotFoundError(CertificateResource, sent.Key()));
        }
      }
      log := log + [Exchange(CertificateStatusUpdate(sent), err)];
    }

    /** client.Get of a Secret. */
    method GetSecret(key: ObjectKey, into: SecretObject) returns (err: Option<Error>)
      requires Valid()
      modifies this, into
      ensures Valid() && certificates == old(certificates) && secrets == old(secrets)
      ensures log == old(log) + [Exchange(SecretGet(key), err)]
      ensures err.None? ==> key in secrets && into.Value() == secrets[key]
      ensures err.Some? ==> unchanged(into)
      ensures err.Some? ==> IsFault(err.value) || (key !in secrets && err.value == NotFoundError(SecretResource, key))
      ensures key !in secrets ==> err.Some?
    {
      err := Transport();
      if err.None? {
        if key in secrets {
          var s := secrets[key];
          into.namespace, into.name, into.data, into.secretType := s.namespace, s.name, s.data, s.secretType;
        } else {
          err := Some(NotFoundError(SecretResource, key));
        }
      }
      log := log + [Exchange(SecretGet(key), err)];
    }

    /** client.Create of a Secret. */
    method CreateSecret(obj: SecretObject) returns (err: Option<Error>)
      requires Valid()
      modifies this
      ensures Valid() && certificates == old(certificates)
      ensures secrets - {obj.Value().Key()} == old(secrets) - {obj.Value().Key()}
      ensures log == old(log) + [Exchange(SecretCreate(obj.Value()), err)]
      ensures err.None? ==> obj.Value().Key() !in old(secrets)
                            && secrets == old(secrets)[obj.Value().Key() := obj.Value()]
      ensures err.Some? ==> secrets == old(secrets)
      ensures err.Some? ==> IsFault(err.value)
                            || (obj.Value().Key() in secrets
                                && err.value == AlreadyExistsError(SecretResource, obj.Value().Key()))
      ensures obj.Value().Key() in old(secrets) ==> err.Some?
    {
      var sent := obj.Value();
      err := Transport();
      if err.None? {
        if sent.Key() !in secrets {
          secrets := secrets[sent.Key() := sent];
        } else {
          err := Some(AlreadyExistsError(SecretResource, sent.Key()));
        }
      }
      log := log + [Exchange(SecretCreate(sent), err)];
    }

    /** client.Update of a Secret: the sent object replaces the stored one. */
    method UpdateSecret(obj: SecretObject) returns (err: Option<Error>)
      requires Valid()
      modifies this
      ensures Valid() && certificates == old(certificates)
      ensures secrets - {obj.Value().Key()} == old(secrets) - {obj.Value().Key()}
      ensures log == old(log) + [Exchange(SecretUpdate(obj.Value()), err)]
      ensures err.None? ==> obj.Value().Key() in old(secrets)
                            && secrets == old(secrets)[obj.Value().Key() := obj.Value()]
      ensures err.Some? ==> secrets == old(secrets)
      ensures err.Some? ==> IsFault(err.value)
                            || (obj.Value().Key() !in secrets
                                && err.value == NotFoundError(SecretResource, obj.Value().Key()))
      ensures obj.Value().Key() !in old(secrets) ==> err.Some?
    {
      var sent := obj.Value();
      err := Transport();
      if err.None? {
        if sent.Key() in secrets {
          secrets := secrets[sent.Key() := sent];
        } else {
          err := Some(NotFoundError(SecretResource, sent.Key()));
        }
      }
      log := log + [Exchange(SecretUpdate(sent), err)];
    }
  }
}
