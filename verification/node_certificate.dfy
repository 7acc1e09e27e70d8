/** The node-certificate task, modelled as written: no overwrite check, the subject
    public key taken from the signing certificate, a validity end 730
    milliseconds after a second clock reading, a fixed SHA1withRSA signature made with the node's own private key,
    and an unencrypted private-key file. */
module NodeCertificate {
  import opened X509
  import opened ExtensionPolicy
  import opened Run

  /** What the task obtains, for one node identity, from its configuration and from
      collaborators outside this model. The clock is read twice, once for each end of
      the validity window. */
  datatype NodeRequest = NodeRequest(
    fileName: string,               // the node's file base name
    subject: Name,                  // the DN built with the role label "node"
    keyPair: KeyPair,               // freshly generated for this node
    startMillis: int,               // first clock reading, the validity start
    endClockMillis: int,            // second clock reading, the base of the validity end
    altNames: seq<GeneralName>)     // the subject alternative name list built for the node

  const NodeSignatureAlgorithm: string := "SHA1withRSA"

  /** The offset the task adds to the second clock reading, in milliseconds. */
  const NodeValidityOffset: int := 730

  /** The certificate the task builds for `req` under `serial`: issued by the signing
      certificate's subject, carrying the signing certificate's public key as its
      subject key, and signed with the node's own private key. */
  function NodeCertificateFor(ctx: Context, req: NodeRequest, serial: nat): (cert: Certificate)
    ensures cert.tbs.serial == serial
    ensures ChainsTo(cert, ctx.signingCertificate)
    ensures cert.tbs.subject == req.subject
    ensures cert.tbs.subjectKey == ctx.signingCertificate.tbs.subjectKey
    ensures cert.tbs.notBefore == req.startMillis
    ensures cert.tbs.notAfter - req.endClockMillis == NodeValidityOffset
    ensures cert.tbs.extensions == NodeExtensions(ctx.signingCertificate, req.keyPair.public, req.altNames)
    ensures cert.signatureAlgorithm == NodeSignatureAlgorithm && cert.signer == req.keyPair.private
    // the key identifier names the subject key only if the node's key is the signing certificate's
    ensures SubjectKeyIdentified(cert) <==> req.keyPair.public == ctx.signingCertificate.tbs.subjectKey
  {
    var signing := ctx.signingCertificate;
    var tbs := Tbs(signing.tbs.subject, serial, req.startMillis, req.endClockMillis + NodeValidityOffset,
                   req.subject, signing.tbs.subjectKey,
                   NodeExtensions(signing, req.keyPair.public, req.altNames));
    var cert := Certificate(tbs, NodeSignatureAlgorithm, req.keyPair.private);
    NodeIdentifiers(cert, signing, req.keyPair.public, req.altNames);
    cert
  }

  /** A certificate carrying the node extension list and naming the signing
      certificate's subject as issuer chains to it, and its SKI names its subject key
      exactly when that key is the node's. */
  lemma NodeIdentifiers(cert: Certificate, signing: Certificate, nodeKey: PublicKey, altNames: seq<GeneralName>)
    requires cert.tbs.issuer == signing.tbs.subject
    requires cert.tbs.extensions == NodeExtensions(signing, nodeKey, altNames)
    ensures ChainsTo(cert, signing)
    ensures SubjectKeyIdentified(cert) <==> nodeKey == cert.tbs.subjectKey
  {
    NodeExtensionsDecode(signing, nodeKey, altNames);
  }

  /** The two outputs of an issued node certificate: the unencrypted private key, and
      the signing certificate followed by the node certificate. */
  function NodeOutputs(files: map<string, Output>, ctx: Context, req: NodeRequest, cert: Certificate)
    : (r: map<string, Output>)
    ensures FilesFramed(files, r, {KeyPath(req.fileName), PemPath(req.fileName)})
    ensures r[KeyPath(req.fileName)] == Output(None, [KeyEntry(req.keyPair.private)])
    ensures r[PemPath(req.fileName)] == Output(None, [CertEntry(ctx.signingCertificate), CertEntry(cert)])
  {
    KeyAndPemDistinct(req.fileName);
    var f1 := AddOutput(files, KeyPath(req.fileName), Output(None, [KeyEntry(req.keyPair.private)]));
    AddOutput(f1, PemPath(req.fileName), Output(None, [CertEntry(ctx.signingCertificate), CertEntry(cert)]))
  }

  /** One run of the node task. */
  function IssueNode(ctx: Context, req: NodeRequest, st: RunState): (r: Step)
    // never skipped, always exactly one serial, the client counters untouched
    ensures !r.outcome.Skipped?
    ensures r.st.nextSerial == st.nextSerial + 1
    ensures r.st.generatedCertificateCount == st.generatedCertificateCount
    ensures r.st.passwordAutoGenerated == st.passwordAutoGenerated
    // failure depends only on the fixed algorithm and the node's own key
    ensures r.outcome.Failed? <==> !ctx.provider.buildsSigner(NodeSignatureAlgorithm, req.keyPair.private)
    ensures r.outcome.Failed? ==> r.st == st.(nextSerial := st.nextSerial + 1)
    ensures r.outcome.Issued? ==>
              && r.outcome.cert == NodeCertificateFor(ctx, req, st.nextSerial)
              && r.st.files == NodeOutputs(st.files, ctx, req, r.outcome.cert)
  {
    var (serial, st1) := NextId(st);
    if !ctx.provider.buildsSigner(NodeSignatureAlgorithm, req.keyPair.private) then
      Step(st1, Failed(ComposingCertificateFailed))
    else
      var cert := NodeCertificateFor(ctx, req, serial);
      Step(st1.(files := NodeOutputs(st1.files, ctx, req, cert)), Issued(cert))
  }

  /** The node task reads neither the configured signature algorithm nor the
      intermediate-CA setting. */
  lemma NodeIgnoresConfiguredDefaults(ctx: Context, algorithm: string, intermediate: bool,
                                      req: NodeRequest, st: RunState)
    ensures IssueNode(ctx.(signatureAlgorithm := algorithm, intermediateConfigured := intermediate), req, st)
            == IssueNode(ctx, req, st)
  {
  }

  /** In the encoded certificate, which keeps whole seconds, equal clock readings give
      a window of one second when the reading's millisecond part is at least 270 and
      of no time at all below that; a clock that does not run backwards never gives a
      window that ends before it starts. */
  lemma NodeEncodedWindow(ctx: Context, req: NodeRequest, serial: nat)
    ensures var cert := NodeCertificateFor(ctx, req, serial);
            var w := EncodedSeconds(cert.tbs.notAfter) - EncodedSeconds(cert.tbs.notBefore);
            && (req.startMillis <= req.endClockMillis ==> 0 <= w)
            && (req.startMillis == req.endClockMillis ==>
                  && (w == 0 <==> req.startMillis % 1000 < 270)
                  && (w == 1 <==> req.startMillis % 1000 >= 270))
  {
    var cert := NodeCertificateFor(ctx, req, serial);
    var a := EncodedSeconds(cert.tbs.notAfter);
    var b := EncodedSeconds(cert.tbs.notBefore);
    var q := req.startMillis / 1000;
    assert req.startMillis == q * 1000 + req.startMillis % 1000;
    if req.startMillis == req.endClockMillis {
      assert b == q;
    }
  }

  /** The builder dates span 730 milliseconds plus whatever elapsed between the two
      clock readings: exactly 730 when both readings agree, and never empty when the
      clock does not run backwards. */
  lemma NodeValidityWindow(ctx: Context, req: NodeRequest, serial: nat)
    ensures var cert := NodeCertificateFor(ctx, req, serial);
            && cert.tbs.notAfter - cert.tbs.notBefore == NodeValidityOffset + (req.endClockMillis - req.startMillis)
            && (req.startMillis == req.endClockMillis ==> cert.tbs.notAfter - cert.tbs.notBefore == NodeValidityOffset)
            && (req.startMillis <= req.endClockMillis ==> cert.tbs.notBefore < cert.tbs.notAfter)
  {
  }
}
