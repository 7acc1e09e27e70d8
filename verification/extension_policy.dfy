/** The ordered extension lists the two leaf-certificate tasks add to their
    certificate builders, as (extension, critical) entries. */
module ExtensionPolicy {
  import opened X509

  /** `KeyUsage.digitalSignature | KeyUsage.nonRepudiation | KeyUsage.keyEncipherment`,
      the integer both tasks pass to `new KeyUsage(...)`. */
  const LeafUsageMask: bv16 :=
    UsageMask(DigitalSignature) | UsageMask(NonRepudiation) | UsageMask(KeyEncipherment)

  /** The key-usage bits a leaf certificate asserts. */
  const LeafKeyUsage: set<KeyUsageBit> := {DigitalSignature, NonRepudiation, KeyEncipherment}

  /** The integer the tasks OR together decodes to exactly the three leaf bits. */
  lemma LeafUsageDecodes()
    ensures UsageBits(LeafUsageMask) == LeafKeyUsage
    ensures KeyCertSign !in UsageBits(LeafUsageMask) && CrlSign !in UsageBits(LeafUsageMask)
  {
    assert LeafUsageMask == 0xE0;
    forall b ensures b in UsageBits(LeafUsageMask) <==> b in LeafKeyUsage {
      match b
      case DigitalSignature =>
      case NonRepudiation =>
      case KeyEncipherment =>
      case DataEncipherment =>
      case KeyAgreement =>
      case KeyCertSign =>
      case CrlSign =>
      case EncipherOnly =>
      case DecipherOnly =>
    }
  }

  /** Extensions of a client certificate: AKI of the signing certificate, SKI of the
      client's own key, a non-CA BasicConstraints, the leaf key usages and clientAuth.
      Only the two key identifiers are non-critical. */
  function ClientExtensions(signingCert: Certificate, clientKey: PublicKey): (r: seq<ExtEntry>)
    ensures KindsOf(r) == [AuthorityKeyIdentifierKind, SubjectKeyIdentifierKind,
                           BasicConstraintsKind, KeyUsageKind, ExtendedKeyUsageKind]
    ensures CriticalFlags(r) == [false, false, true, true, true]
    ensures DistinctKinds(r)
    ensures r[0].ext.AKI? && r[0].ext.authId.issuer == signingCert
    ensures r[1].ext.SKI? && r[1].ext.subjId.key == clientKey
    ensures r[2].ext.BC? && !r[2].ext.constraints.cA && r[2].ext.constraints.pathLen.None?
    ensures r[3].ext.KU? && r[3].ext.usage == LeafKeyUsage
    ensures r[4].ext.EKU? && r[4].ext.purposes == [ClientAuth]
  {
    LeafUsageDecodes();
    [ ExtEntry(AKI(AuthorityKeyIdOf(signingCert)), false),
      ExtEntry(SKI(SubjectKeyIdOf(clientKey)), false),
      ExtEntry(BC(ConstraintsOfFlag(false)), true),
      ExtEntry(KU(UsageBits(LeafUsageMask)), true),
      ExtEntry(EKU([ClientAuth]), true) ]
  }

  /** Extensions of a node certificate: the client's five kinds in the same order, but
      BasicConstraints built from the path length 0 (a CA constraint), extended key
      usage serverAuth then clientAuth, and a non-critical subject alternative name
      extension that is present even when the name list is empty. */
  function NodeExtensions(signingCert: Certificate, nodeKey: PublicKey, altNames: seq<GeneralName>): (r: seq<ExtEntry>)
    ensures KindsOf(r) == [AuthorityKeyIdentifierKind, SubjectKeyIdentifierKind,
                           BasicConstraintsKind, KeyUsageKind, ExtendedKeyUsageKind,
                           SubjectAlternativeNameKind]
    ensures CriticalFlags(r) == [false, false, true, true, true, false]
    ensures DistinctKinds(r)
    ensures r[0].ext.AKI? && r[0].ext.authId.issuer == signingCert
    ensures r[1].ext.SKI? && r[1].ext.subjId.key == nodeKey
    ensures r[2].ext.BC? && r[2].ext.constraints.cA && r[2].ext.constraints.pathLen == Some(0)
    ensures r[3].ext.KU? && r[3].ext.usage == LeafKeyUsage
    ensures r[4].ext.EKU? && r[4].ext.purposes == [ServerAuth, ClientAuth]
    ensures r[5].ext.SAN? && r[5].ext.names == altNames
  {
    LeafUsageDecodes();
    [ ExtEntry(AKI(AuthorityKeyIdOf(signingCert)), false),
      ExtEntry(SKI(SubjectKeyIdOf(nodeKey)), false),
      ExtEntry(BC(ConstraintsOfPathLen(0)), true),
      ExtEntry(KU(UsageBits(LeafUsageMask)), true),
      ExtEntry(EKU([ServerAuth, ClientAuth]), true) ]
    + [ ExtEntry(SAN(altNames), false) ]
  }

  /** The node list agrees with the client list on the key identifiers and the key
      usage, differs on BasicConstraints and extended key usage, and adds one entry. */
  lemma NodeAgainstClient(signingCert: Certificate, key: PublicKey, altNames: seq<GeneralName>)
    ensures var n := NodeExtensions(signingCert, key, altNames);
            var c := ClientExtensions(signingCert, key);
            && |n| == |c| + 1
            && n[0] == c[0] && n[1] == c[1] && n[3] == c[3]
            && n[2] != c[2] && n[4] != c[4]
  {
  }

  /** What a reader that decodes a client certificate's extensions by OID finds. */
  lemma ClientExtensionsDecode(signingCert: Certificate, clientKey: PublicKey)
    ensures var r := ClientExtensions(signingCert, clientKey);
            && Lookup(r, KeyUsageKind) == Some(ExtEntry(KU(LeafKeyUsage), true))
            && Lookup(r, ExtendedKeyUsageKind) == Some(ExtEntry(EKU([ClientAuth]), true))
            && Lookup(r, BasicConstraintsKind) == Some(ExtEntry(BC(BasicConstraints(false, None)), true))
            && Lookup(r, AuthorityKeyIdentifierKind) == Some(ExtEntry(AKI(AuthorityKeyIdOf(signingCert)), false))
            && Lookup(r, SubjectKeyIdentifierKind) == Some(ExtEntry(SKI(SubjectKeyIdOf(clientKey)), false))
            && Lookup(r, SubjectAlternativeNameKind) == None
  {
    var r := ClientExtensions(signingCert, clientKey);
    LookupEach(r);
    LookupAbsent(r, SubjectAlternativeNameKind);
  }

  /** What a reader that decodes a node certificate's extensions by OID finds: the
      subject alternative names are always there, exactly as supplied. */
  lemma NodeExtensionsDecode(signingCert: Certificate, nodeKey: PublicKey, altNames: seq<GeneralName>)
    ensures var r := NodeExtensions(signingCert, nodeKey, altNames);
            && Lookup(r, KeyUsageKind) == Some(ExtEntry(KU(LeafKeyUsage), true))
            && Lookup(r, ExtendedKeyUsageKind) == Some(ExtEntry(EKU([ServerAuth, ClientAuth]), true))
            && Lookup(r, BasicConstraintsKind) == Some(ExtEntry(BC(BasicConstraints(true, Some(0))), true))
            && Lookup(r, SubjectAlternativeNameKind) == Some(ExtEntry(SAN(altNames), false))
            && Lookup(r, AuthorityKeyIdentifierKind) == Some(ExtEntry(AKI(AuthorityKeyIdOf(signingCert)), false))
            && Lookup(r, SubjectKeyIdentifierKind) == Some(ExtEntry(SKI(SubjectKeyIdOf(nodeKey)), false))
  {
    LookupEach(NodeExtensions(signingCert, nodeKey, altNames));
  }
}
