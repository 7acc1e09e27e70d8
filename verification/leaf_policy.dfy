/** The intended leaf-certificate policy, one rule per predicate, each with its own
    basis, and how the two tasks as written measure up against it. The tasks
    themselves are modelled as written; nothing here changes what they do. */
module LeafPolicy {
  import opened X509
  import opened ExtensionPolicy
  import opened Run
  import opened ClientCertificate
  import opened NodeCertificate

  const SecondsPerDay: int := 86_400

  /** A subject alternative name extension exactly when there are names: section
      4.2.1.6 of RFC 5280 requires a present extension to hold at least one name. */
  predicate SanPresenceRule(exts: seq<ExtEntry>, altNames: seq<GeneralName>) {
    Lookup(exts, SubjectAlternativeNameKind).Some? <==> |altNames| > 0
  }

  /** A leaf certificate's BasicConstraints is present and does not assert cA:
      section 4.2.1.9 of RFC 5280 reserves the cA flag for certificates whose key
      signs certificates. */
  predicate NonCaLeafRule(exts: seq<ExtEntry>) {
    && Lookup(exts, BasicConstraintsKind).Some?
    && Lookup(exts, BasicConstraintsKind).value.ext.BC?
    && !Lookup(exts, BasicConstraintsKind).value.ext.constraints.cA
  }

  /** Only BasicConstraints and KeyUsage are critical. Section 4.2.1.3 of RFC 5280
      asks for a critical KeyUsage; section 4.2.1.12 lets ExtendedKeyUsage be either,
      so keeping it non-critical is a policy choice rather than an RFC requirement. */
  predicate CriticalityRule(exts: seq<ExtEntry>) {
    forall i | 0 <= i < |exts| ::
      exts[i].critical <==> Kind(exts[i].ext) == BasicConstraintsKind || Kind(exts[i].ext) == KeyUsageKind
  }

  /** The validity window, as encoded in whole seconds, is a whole number of days, as
      the client task's end date is; the node task's fixed 730 ms carries a TODO in
      its source. */
  predicate WholeDaysValidity(cert: Certificate, validityDays: int) {
    EncodedSeconds(cert.tbs.notAfter) - EncodedSeconds(cert.tbs.notBefore) == validityDays * SecondsPerDay
  }

  /** A leaf certificate is signed with the issuer's private key (section 4.1.1.3 of
      RFC 5280), under the configured signature algorithm as the client task does. */
  predicate SignedByAuthority(cert: Certificate, ctx: Context) {
    cert.signer == ctx.signingPrivateKey && cert.signatureAlgorithm == ctx.signatureAlgorithm
  }

  /** The node list meets the SAN rule exactly when the name list is non-empty: an
      empty list still yields an (empty) extension. */
  lemma NodeSanAgainstPolicy(signingCert: Certificate, nodeKey: PublicKey, altNames: seq<GeneralName>)
    ensures SanPresenceRule(NodeExtensions(signingCert, nodeKey, altNames), altNames) <==> |altNames| > 0
  {
    NodeExtensionsDecode(signingCert, nodeKey, altNames);
  }

  /** The client list never has a SAN extension, so it meets the rule for its (empty) name list. */
  lemma ClientSanMeetsPolicy(signingCert: Certificate, clientKey: PublicKey)
    ensures SanPresenceRule(ClientExtensions(signingCert, clientKey), [])
  {
    ClientExtensionsDecode(signingCert, clientKey);
  }

  /** The client's BasicConstraints is the non-CA one; the node's never is. */
  lemma LeafConstraintsAgainstPolicy(signingCert: Certificate, key: PublicKey, altNames: seq<GeneralName>)
    ensures NonCaLeafRule(ClientExtensions(signingCert, key))
    ensures !NonCaLeafRule(NodeExtensions(signingCert, key, altNames))
  {
    ClientExtensionsDecode(signingCert, key);
    NodeExtensionsDecode(signingCert, key, altNames);
  }

  /** Both lists mark extended key usage critical, against the rule. */
  lemma CriticalityAgainstPolicy(signingCert: Certificate, key: PublicKey, altNames: seq<GeneralName>)
    ensures !CriticalityRule(ClientExtensions(signingCert, key))
    ensures !CriticalityRule(NodeExtensions(signingCert, key, altNames))
  {
    var c := ClientExtensions(signingCert, key);
    var n := NodeExtensions(signingCert, key, altNames);
    assert Kind(c[4].ext) == KindsOf(c)[4];
    assert Kind(n[4].ext) == KindsOf(n)[4];
    assert c[4].critical == CriticalFlags(c)[4] && n[4].critical == CriticalFlags(n)[4];
  }

  /** With both clock readings in the same millisecond, a node certificate is valid
      for no positive number of days: it meets the rule only as an empty window of
      zero days, which is what it encodes when the reading's millisecond part is below
      270. */
  lemma NodeValidityAgainstPolicy(ctx: Context, req: NodeRequest, serial: nat, validityDays: int)
    requires req.startMillis == req.endClockMillis
    ensures WholeDaysValidity(NodeCertificateFor(ctx, req, serial), validityDays) <==>
              validityDays == 0 && req.startMillis % 1000 < 270
    ensures validityDays > 0 ==> !WholeDaysValidity(NodeCertificateFor(ctx, req, serial), validityDays)
  {
    NodeEncodedWindow(ctx, req, serial);
    if validityDays >= 1 {
      assert validityDays * SecondsPerDay >= SecondsPerDay;
    } else if validityDays <= -1 {
      assert validityDays * SecondsPerDay <= -SecondsPerDay;
    }
  }

  /** A client certificate is signed as the rule asks; a node certificate is so only when
      the node's key is the authority's and the configured algorithm is SHA1withRSA. */
  lemma SignerAgainstPolicy(ctx: Context, client: ClientRequest, node: NodeRequest, serial: nat)
    ensures SignedByAuthority(ClientCertificateFor(ctx, client, serial), ctx)
    ensures SignedByAuthority(NodeCertificateFor(ctx, node, serial), ctx) <==>
              node.keyPair.private == ctx.signingPrivateKey && ctx.signatureAlgorithm == NodeSignatureAlgorithm
  {
  }
}
