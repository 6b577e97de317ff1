/** The data shapes of the Certificate resource (api/v1/certificate_types.go)
    and of the Kubernetes core types it uses: Secret, Condition, object
    metadata, and Go's time.Time / time.Duration. */
module Types {
  import opened Errors

  /** Nanoseconds since the Unix epoch. Go's time.Time covers a far wider
      range than int64 nanoseconds, so the model uses an unbounded int. */
  type Time = int

  const MinInt64: int := -0x8000_0000_0000_0000
  const MaxInt64: int := 0x7fff_ffff_ffff_ffff
  type Int64 = x: int | MinInt64 <= x <= MaxInt64

  /** time.Duration: a signed 64-bit count of nanoseconds. */
  type Duration = Int64

  const Second: int := 1_000_000_000
  const Hour: int := 3600 * Second
  const Day: int := 24 * Hour

  /** The Go zero time.Time (January 1, year 1, UTC). */
  const ZeroTime: Time := -62135596800 * Second

  /** Two's-complement wrap-around of a Go int64 (or time.Duration)
      multiplication or addition. */
  function Wrap64(x: int): (r: Int64)
    ensures (x - r) % 0x1_0000_0000_0000_0000 == 0
    ensures MinInt64 <= x <= MaxInt64 ==> r == x
  {
    (x - MinInt64) % 0x1_0000_0000_0000_0000 + MinInt64
  }

  /** The Euclidean remainder is the only remainder in [0, m). */
  lemma ModUnique(a: int, q: int, r: int, m: int)
    requires m > 0 && a == q * m + r && 0 <= r < m
    ensures a % m == r
  {
    var q', r' := a / m, a % m;
    var d := q - q';
    assert d * m == r' - r by {
      assert q' * m + r' == a;
    }
    if d >= 1 {
      NonNegativeProduct(d - 1, m);
    } else if d <= -1 {
      NonNegativeProduct(-d - 1, m);
    }
  }

  lemma NonNegativeProduct(a: int, b: int)
    requires a >= 0 && b >= 0
    ensures a * b >= 0
  {
  }

  /** Adding whole multiples of 2^64 does not change the wrapped value. */
  lemma Wrap64Periodic(x: int, k: int)
    ensures Wrap64(x + k * 0x1_0000_0000_0000_0000) == Wrap64(x)
  {
    var m := 0x1_0000_0000_0000_0000;
    var a := x - MinInt64;
    ModUnique(a + k * m, a / m + k, a % m, m);
  }

  /** int64 multiplication wraps the same whether or not a factor was
      already wrapped: the as-written `time.Duration(days) * 24 * time.Hour`
      is the wrapped mathematical product. */
  lemma Wrap64Mul(x: int, y: int)
    ensures Wrap64(Wrap64(x) * y) == Wrap64(x * y)
  {
    var m := 0x1_0000_0000_0000_0000;
    var w := Wrap64(x);
    var k := (x - w) / m;
    assert x - w == k * m;
    assert w * y == x * y + (-k * y) * m by {
      assert w == x - k * m;
    }
    Wrap64Periodic(x * y, -k * y);
  }

  /** time.Time.Sub clamps its result to the time.Duration range. */
  function Saturate64(x: int): (r: Int64)
    ensures MinInt64 <= x <= MaxInt64 ==> r == x
    ensures x > MaxInt64 ==> r == MaxInt64
    ensures x < MinInt64 ==> r == MinInt64
  {
    if x < MinInt64 then MinInt64 else if x > MaxInt64 then MaxInt64 else x
  }

  /** time.Until(t) with the clock reading now: t.Sub(now). */
  function Until(t: Time, now: Time): Duration
  {
    Saturate64(t - now)
  }

  /** An X.509 certificate stores its validity instants at one-second
      resolution: the instant is rounded down to the whole second. */
  function Seconds(t: Time): (r: Time)
    ensures r <= t < r + Second
    ensures r % Second == 0
  {
    t - t % Second
  }

  /** types.NamespacedName. */
  datatype ObjectKey = ObjectKey(namespace: string, name: string)

  /** corev1.SecretReference. */
  datatype SecretReference = SecretReference(name: string, namespace: string)

  /** CertificateSpec: the desired state. */
  datatype CertificateSpec = CertificateSpec(dnsName: string, validity: string, secretRef: SecretReference)

  /** metav1.ConditionStatus. */
  datatype ConditionStatus = ConditionTrue | ConditionFalse | ConditionUnknown

  /** metav1.Condition. */
  datatype Condition = Condition(
    condType: string,
    status: ConditionStatus,
    observedGeneration: int,
    lastTransitionTime: Time,
    reason: string,
    message: string)

  /** CertificateStatus: the observed state the controller writes. */
  datatype CertificateStatus = CertificateStatus(
    conditions: seq<Condition>,
    serialNumber: string,
    notBefore: Time,
    notAfter: Time,
    issuer: string)

  /** The parts of metav1.ObjectMeta the controller and the API server use. */
  datatype ObjectMeta = ObjectMeta(
    namespace: string,
    name: string,
    generation: int,
    deletionTimestamp: Option<Time>,
    finalizers: seq<string>)

  /** The Certificate resource. */
  datatype Certificate = Certificate(metadata: ObjectMeta, spec: CertificateSpec, status: CertificateStatus)
  {
    function Key(): ObjectKey { ObjectKey(metadata.namespace, metadata.name) }
  }

  type Byte = b: int | 0 <= b < 256
  type Bytes = seq<Byte>

  /** corev1.Secret: name, namespace, the data map and the type tag. */
  datatype Secret = Secret(namespace: string, name: string, data: map<string, Bytes>, secretType: string)
  {
    function Key(): ObjectKey { ObjectKey(namespace, name) }
  }

  /** corev1.TLSCertKey, corev1.TLSPrivateKeyKey and corev1.SecretTypeTLS. */
  const TLSCertKey: string := "tls.crt"
  const TLSPrivateKeyKey: string := "tls.key"
  const SecretTypeTLS: string := "kubernetes.io/tls"

  /** metav1.Time.IsZero on a *metav1.Time: nil or the zero instant. */
  predicate IsZero(t: Option<Time>)
  {
    t.None? || t.value == ZeroTime
  }

  const EmptyStatus: CertificateStatus := CertificateStatus([], "", ZeroTime, ZeroTime, "")
  const EmptyCertificate: Certificate :=
    Certificate(ObjectMeta("", "", 0, None, []), CertificateSpec("", "", SecretReference("", "")), EmptyStatus)
  const EmptySecret: Secret := Secret("", "", map[], "")
}
