/** The library routines the controller calls and this model does not open
    up: time.ParseDuration, encoding/pem, crypto/x509, crypto/rsa and
    crypto/rand. The deterministic ones are the fields of a Library
    record; what the model assumes of them is Library.Lawful(). The random
    ones are methods that choose their result nondeterministically. */
module Stdlib {
  import opened Errors
  import opened Types

  /** An RSA key pair; `modulus` and `exponent` stand for the key's
      material. */
  datatype PrivateKey = PrivateKey(bits: nat, modulus: nat, exponent: nat)
  {
    function Public(): PublicKey { PublicKey(bits, modulus) }
  }

  datatype PublicKey = PublicKey(bits: nat, modulus: nat)

  /** pkix.Name, restricted to the attributes the controller sets. */
  datatype Name = Name(organization: seq<string>, commonName: string)

  datatype KeyUsage = KeyUsageDigitalSignature | KeyUsageKeyEncipherment
  datatype ExtKeyUsage = ExtKeyUsageServerAuth
  datatype SignatureAlgorithm = SHA256WithRSA

  /** The x509.Certificate template handed to x509.CreateCertificate. */
  datatype Template = Template(
    serialNumber: nat,
    subject: Name,
    signatureAlgorithm: SignatureAlgorithm,
    notBefore: Time,
    notAfter: Time,
    dnsNames: seq<string>,
    keyUsage: set<KeyUsage>,
    extKeyUsage: seq<ExtKeyUsage>,
    basicConstraintsValid: bool,
    isCA: bool)

  /** What x509.ParseCertificate reports about a certificate. */
  datatype CertInfo = CertInfo(
    serialNumber: nat,
    subject: Name,
    issuer: Name,
    notBefore: Time,
    notAfter: Time,
    dnsNames: seq<string>,
    publicKey: PublicKey,
    isCA: bool)

  /** pem.Block. */
  datatype PemBlock = PemBlock(blockType: string, bytes: Bytes)

  const CertificateBlock: string := "CERTIFICATE"
  const RsaPrivateKeyBlock: string := "RSA PRIVATE KEY"

  datatype Library = Library(
    parseDuration: string -> Result<Duration>,                // time.ParseDuration
    pemEncode: PemBlock -> Bytes,                             // pem.EncodeToMemory
    pemDecode: Bytes -> Option<PemBlock>,                     // pem.Decode (first block)
    createCertificate: (Template, PrivateKey) -> Result<Bytes>,  // x509.CreateCertificate, self-signed
    parseCertificate: Bytes -> Result<CertInfo>,              // x509.ParseCertificate
    marshalPKCS1PrivateKey: PrivateKey -> Bytes,              // x509.MarshalPKCS1PrivateKey
    parsePKCS1PrivateKey: Bytes -> Result<PrivateKey>)        // x509.ParsePKCS1PrivateKey
  {
    /** What the model assumes of the library: PEM decoding undoes PEM
        encoding and finds no block in an empty input; a certificate that
        x509.CreateCertificate signs with a template as its own parent
        parses back to that template's fields, its issuer being its
        subject; a marshalled key parses back to itself. */
    ghost predicate Lawful()
    {
      && pemDecode([]) == None
      && (forall b :: pemDecode(pemEncode(b)) == Some(b))
      && (forall t, k :: createCertificate(t, k).Ok? ==>
            parseCertificate(createCertificate(t, k).value) == Ok(InfoOf(t, k)))
      && (forall k :: parsePKCS1PrivateKey(marshalPKCS1PrivateKey(k)) == Ok(k))
    }
  }

  /** The fields of the certificate that x509.CreateCertificate(rand,
      t, t, k.Public(), k) produces. */
  function InfoOf(t: Template, k: PrivateKey): (info: CertInfo)
    ensures info.subject == info.issuer == t.subject
    ensures info.notBefore == Seconds(t.notBefore) && info.notAfter == Seconds(t.notAfter)
    ensures info.publicKey == k.Public()
  {
    CertInfo(t.serialNumber, t.subject, t.subject, Seconds(t.notBefore), Seconds(t.notAfter),
             t.dnsNames, k.Public(), t.isCA)
  }

  /** rsa.GenerateKey(rand.Reader, bits): a fresh key pair of that size,
      or an error when the random source fails. */
  method GenerateKey(bits: nat) returns (r: Result<PrivateKey>)
    ensures r.Ok? ==> r.value.bits == bits
    ensures r.Err? ==> r.error.LibraryError?
  {
    var failed: bool := *;
    if failed {
      var text: string := *;
      r := Err(LibraryError(text));
    } else {
      var modulus: nat := *;
      var exponent: nat := *;
      r := Ok(PrivateKey(bits, modulus, exponent));
    }
  }

  /** rand.Int(rand.Reader, max): a value in [0, max), or an error when
      the random source fails. */
  method RandInt(max: nat) returns (r: Result<nat>)
    requires max > 0
    ensures r.Ok? ==> r.value < max
    ensures r.Err? ==> r.error.LibraryError?
  {
    var failed: bool := *;
    if failed {
      var text: string := *;
      r := Err(LibraryError(text));
    } else {
      var v: nat :| v < max;
      r := Ok(v);
    }
  }
}
