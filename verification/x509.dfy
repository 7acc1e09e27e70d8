/** The X.509 vocabulary the two issuance tasks use. Cryptographic objects are
    opaque: a key is known only by its identity, a key identifier is the symbolic
    term "the identifier of this key", and a signature is the symbolic term
    "signed with this key under this algorithm". Two such terms are equal exactly
    when they are built from equal parts (an idealised, collision-free hash). */
module X509 {

  datatype Option<+T> = None | Some(value: T)

  /** Asymmetric key material; only its identity is observable. */
  datatype PublicKey = PublicKey(keyId: nat)
  datatype PrivateKey = PrivateKey(keyId: nat)
  datatype KeyPair = KeyPair(public: PublicKey, private: PrivateKey)

  /** An X.500 distinguished name as rendered by the (unmodelled) DN builder. */
  datatype Name = Name(rendered: string)

  /** The nine KeyUsage bits of section 4.2.1.3 of RFC 5280. */
  datatype KeyUsageBit =
    | DigitalSignature | NonRepudiation | KeyEncipherment | DataEncipherment
    | KeyAgreement | KeyCertSign | CrlSign | EncipherOnly | DecipherOnly

  /** The integer constant BouncyCastle's KeyUsage class gives each bit:
      RFC 5280 bit i < 8 sits at 1 << (7 - i), decipherOnly at 1 << 15. */
  function UsageMask(b: KeyUsageBit): bv16 {
    match b
    case DigitalSignature => 0x80
    case NonRepudiation => 0x40
    case KeyEncipherment => 0x20
    case DataEncipherment => 0x10
    case KeyAgreement => 0x08
    case KeyCertSign => 0x04
    case CrlSign => 0x02
    case EncipherOnly => 0x01
    case DecipherOnly => 0x8000
  }

  const AllUsageBits: seq<KeyUsageBit> :=
    [DigitalSignature, NonRepudiation, KeyEncipherment, DataEncipherment,
     KeyAgreement, KeyCertSign, CrlSign, EncipherOnly, DecipherOnly]

  lemma UsageBitListed(b: KeyUsageBit)
    ensures b in AllUsageBits
  {
    match b
    case DigitalSignature => assert AllUsageBits[0] == b;
    case NonRepudiation => assert AllUsageBits[1] == b;
    case KeyEncipherment => assert AllUsageBits[2] == b;
    case DataEncipherment => assert AllUsageBits[3] == b;
    case KeyAgreement => assert AllUsageBits[4] == b;
    case KeyCertSign => assert AllUsageBits[5] == b;
    case CrlSign => assert AllUsageBits[6] == b;
    case EncipherOnly => assert AllUsageBits[7] == b;
    case DecipherOnly => assert AllUsageBits[8] == b;
  }

  /** The bits a `new KeyUsage(usage)` asserts: exactly those whose mask is set. */
  function UsageBits(usage: bv16): (bits: set<KeyUsageBit>)
    ensures forall b :: b in bits <==> usage & UsageMask(b) != 0
  {
    assert forall b :: b in AllUsageBits by {
      forall b ensures b in AllUsageBits { UsageBitListed(b); }
    }
    set b | b in AllUsageBits && usage & UsageMask(b) != 0
  }

  /** The integer with the BouncyCastle constant of each bit whose flag is set. */
  function MaskOfFlags(ds: bool, nr: bool, ke: bool, de: bool, ka: bool,
                       kcs: bool, crl: bool, eo: bool, dec: bool): bv16 {
    (if ds then 0x80 else 0) | (if nr then 0x40 else 0) | (if ke then 0x20 else 0)
    | (if de then 0x10 else 0) | (if ka then 0x08 else 0) | (if kcs then 0x04 else 0)
    | (if crl then 0x02 else 0) | (if eo then 0x01 else 0) | (if dec then 0x8000 else 0)
  }

  /** Each constant's bit is set in the OR exactly when its flag is. */
  lemma FlagsMaskBits(ds: bool, nr: bool, ke: bool, de: bool, ka: bool,
                      kcs: bool, crl: bool, eo: bool, dec: bool)
    ensures var m := MaskOfFlags(ds, nr, ke, de, ka, kcs, crl, eo, dec);
            && (m & 0x80 != 0 <==> ds) && (m & 0x40 != 0 <==> nr) && (m & 0x20 != 0 <==> ke)
            && (m & 0x10 != 0 <==> de) && (m & 0x08 != 0 <==> ka) && (m & 0x04 != 0 <==> kcs)
            && (m & 0x02 != 0 <==> crl) && (m & 0x01 != 0 <==> eo) && (m & 0x8000 != 0 <==> dec)
  {
  }

  /** The integer a caller ORs together to request the bit set `s`; bits 8 to 14,
      which no constant uses, stay clear. */
  function UsageMaskOf(s: set<KeyUsageBit>): (m: bv16)
    ensures m & 0x7f00 == 0
  {
    MaskOfFlags(DigitalSignature in s, NonRepudiation in s, KeyEncipherment in s,
                DataEncipherment in s, KeyAgreement in s, KeyCertSign in s,
                CrlSign in s, EncipherOnly in s, DecipherOnly in s)
  }

  lemma MaskOfHasBit(s: set<KeyUsageBit>, b: KeyUsageBit)
    ensures UsageMaskOf(s) & UsageMask(b) != 0 <==> b in s
  {
    FlagsMaskBits(DigitalSignature in s, NonRepudiation in s, KeyEncipherment in s,
                  DataEncipherment in s, KeyAgreement in s, KeyCertSign in s,
                  CrlSign in s, EncipherOnly in s, DecipherOnly in s);
  }

  /** Encoding a bit set as BouncyCastle's integer and decoding it again is lossless. */
  lemma UsageRoundTrip(s: set<KeyUsageBit>)
    ensures UsageBits(UsageMaskOf(s)) == s
  {
    var m := UsageMaskOf(s);
    forall b
      ensures b in UsageBits(m) <==> b in s
    {
      MaskOfHasBit(s, b);
    }
  }

  /** Extended key usage purposes (section 4.2.1.12 of RFC 5280) the tasks use. */
  datatype Purpose = ServerAuth | ClientAuth

  /** Subject alternative name entries as produced for node identities. */
  datatype GeneralName = DnsName(dns: string) | IpAddress(ip: string) | RegisteredId(oid: string)

  /** BouncyCastle's BasicConstraints value: the cA flag and an optional path length. */
  datatype BasicConstraints = BasicConstraints(cA: bool, pathLen: Option<nat>)

  /** `new BasicConstraints(boolean cA)`: the flag as given, no path length. */
  function ConstraintsOfFlag(cA: bool): (r: BasicConstraints)
    ensures r.cA == cA && r.pathLen.None?
  {
    BasicConstraints(cA, None)
  }

  /** `new BasicConstraints(int pathLen)`: BouncyCastle sets cA and records the path
      length, so even `new BasicConstraints(0)` marks a CA. */
  function ConstraintsOfPathLen(pathLen: nat): (r: BasicConstraints)
    ensures r.cA && r.pathLen == Some(pathLen)
  {
    BasicConstraints(true, Some(pathLen))
  }

  /** Subject key identifier of a public key (a hash, kept symbolic). */
  datatype KeyIdentifier = SubjectKeyIdOf(key: PublicKey)

  /** Authority key identifier derived from an issuing certificate (kept symbolic). */
  datatype AuthorityKeyIdentifier = AuthorityKeyIdOf(issuer: Certificate)

  /** The closed set of extensions the tasks emit. */
  datatype Ext =
    | AKI(authId: AuthorityKeyIdentifier)
    | SKI(subjId: KeyIdentifier)
    | BC(constraints: BasicConstraints)
    | KU(usage: set<KeyUsageBit>)
    | EKU(purposes: seq<Purpose>)
    | SAN(names: seq<GeneralName>)

  /** The extension's OID, one per constructor. */
  datatype ExtKind =
    | AuthorityKeyIdentifierKind | SubjectKeyIdentifierKind | BasicConstraintsKind
    | KeyUsageKind | ExtendedKeyUsageKind | SubjectAlternativeNameKind

  function Kind(e: Ext): ExtKind {
    match e
    case AKI(_) => AuthorityKeyIdentifierKind
    case SKI(_) => SubjectKeyIdentifierKind
    case BC(_) => BasicConstraintsKind
    case KU(_) => KeyUsageKind
    case EKU(_) => ExtendedKeyUsageKind
    case SAN(_) => SubjectAlternativeNameKind
  }

  /** One `addExtension(oid, critical, value)` call. */
  datatype ExtEntry = ExtEntry(ext: Ext, critical: bool)

  function KindsOf(exts: seq<ExtEntry>): (kinds: seq<ExtKind>)
    ensures |kinds| == |exts|
  {
    seq(|exts|, i requires 0 <= i < |exts| => Kind(exts[i].ext))
  }

  function CriticalFlags(exts: seq<ExtEntry>): (flags: seq<bool>)
    ensures |flags| == |exts|
  {
    seq(|exts|, i requires 0 <= i < |exts| => exts[i].critical)
  }

  /** No extension OID occurs twice (BouncyCastle's builder refuses a repeated OID,
      and section 4.2 of RFC 5280 forbids it). */
  predicate DistinctKinds(exts: seq<ExtEntry>) {
    forall i, j | 0 <= i < j < |exts| :: Kind(exts[i].ext) != Kind(exts[j].ext)
  }

  /** The extension with OID `k`, as a reader of the certificate decodes it. */
  function Lookup(exts: seq<ExtEntry>, k: ExtKind): (r: Option<ExtEntry>)
    ensures r.Some? ==> r.value in exts && Kind(r.value.ext) == k
    ensures r.None? <==> forall i | 0 <= i < |exts| :: Kind(exts[i].ext) != k
  {
    if |exts| == 0 then None
    else if Kind(exts[0].ext) == k then Some(exts[0])
    else Lookup(exts[1..], k)
  }

  /** In a list without repeated OIDs, looking up an entry's OID finds that entry. */
  lemma {:induction false} LookupDistinct(exts: seq<ExtEntry>, i: nat)
    requires DistinctKinds(exts) && i < |exts|
    ensures Lookup(exts, Kind(exts[i].ext)) == Some(exts[i])
  {
    if i != 0 {
      assert Kind(exts[0].ext) != Kind(exts[i].ext);
      assert exts[1..][i - 1] == exts[i];
      LookupDistinct(exts[1..], i - 1);
    }
  }

  /** Looking up an OID the list does not carry finds nothing. */
  lemma LookupAbsent(exts: seq<ExtEntry>, k: ExtKind)
    requires k !in KindsOf(exts)
    ensures Lookup(exts, k) == None
  {
    forall i | 0 <= i < |exts| ensures Kind(exts[i].ext) != k {
      assert Kind(exts[i].ext) == KindsOf(exts)[i];
    }
  }

  /** Every entry of a list without repeated OIDs is what a lookup of its OID finds. */
  lemma LookupEach(exts: seq<ExtEntry>)
    requires DistinctKinds(exts)
    ensures forall i | 0 <= i < |exts| :: Lookup(exts, KindsOf(exts)[i]) == Some(exts[i])
  {
    forall i | 0 <= i < |exts| ensures Lookup(exts, KindsOf(exts)[i]) == Some(exts[i]) {
      LookupDistinct(exts, i);
    }
  }

  /** The to-be-signed part of a version 3 certificate. */
  datatype Tbs = Tbs(
    issuer: Name,
    serial: nat,
    notBefore: int,   // the Date handed to the builder, in milliseconds since the epoch
    notAfter: int,    // likewise; the encoding keeps whole seconds (EncodedSeconds)
    subject: Name,
    subjectKey: PublicKey,
    extensions: seq<ExtEntry>)

  /** The second an encoded validity time carries for a builder date of `millis`.
      BouncyCastle formats a Date down to whole seconds, and section 4.1.2.5 of
      RFC 5280 allows no fractional seconds, so the date is rounded down. */
  function EncodedSeconds(millis: int): (s: int)
    ensures s * 1000 <= millis < s * 1000 + 1000
  {
    millis / 1000
  }

  /** A signed certificate: its content, the signature algorithm name and the key that signed. */
  datatype Certificate = Certificate(tbs: Tbs, signatureAlgorithm: string, signer: PrivateKey)

  /** `cert` names `issuerCert`'s subject as its issuer and carries, non-critically,
      the authority key identifier derived from `issuerCert`. */
  predicate ChainsTo(cert: Certificate, issuerCert: Certificate) {
    && cert.tbs.issuer == issuerCert.tbs.subject
    && Lookup(cert.tbs.extensions, AuthorityKeyIdentifierKind)
       == Some(ExtEntry(AKI(AuthorityKeyIdOf(issuerCert)), false))
  }

  /** The subject key identifier extension identifies the certificate's own subject key. */
  predicate SubjectKeyIdentified(cert: Certificate) {
    && Lookup(cert.tbs.extensions, SubjectKeyIdentifierKind).Some?
    && Lookup(cert.tbs.extensions, SubjectKeyIdentifierKind).value.ext
       == SKI(SubjectKeyIdOf(cert.tbs.subjectKey))
  }
}
