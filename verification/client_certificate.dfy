/** The client-certificate task: one run issues a certificate for one client
    identity, signed by the context's signing key, and registers the certificate,
    the (possibly encrypted) private key and the shared client readme as outputs. */
module ClientCertificate {
  import opened X509
  import opened ExtensionPolicy
  import opened Run

  /** What the task obtains, for one client identity, from its configuration and
      from collaborators outside this model (DN rendering, key generation, the
      clock, the end-date computation, the overwrite prompt, password handling). */
  datatype ClientRequest = ClientRequest(
    fileName: string,           // the client's file base name
    subject: Name,              // the DN built with the role label "client"
    overwriteConfirmed: bool,   // the overwrite check let the task proceed
    keyPair: KeyPair,           // freshly generated for this client
    now: int,                   // the clock, in milliseconds
    validityEnd: int,           // the end date computed from `now` and the validity days
    password: Option<string>,   // the resolved private-key password, if any
    autoPassword: bool)         // password auto-generation is enabled for this client

  const ReadmePath: string := "client-certificates.readme"

  /** The three outputs of one client never share a path, whatever the file name. */
  lemma ClientPathsDistinct(fileName: string)
    ensures KeyPath(fileName) != PemPath(fileName)
    ensures KeyPath(fileName) != ReadmePath && PemPath(fileName) != ReadmePath
  {
    KeyAndPemDistinct(fileName);
    var n := |fileName|;
    assert KeyPath(fileName)[n + 3] == 'y' && PemPath(fileName)[n + 3] == 'm';
    assert ReadmePath[|ReadmePath| - 1] == 'e';
  }

  /** The certificate the task builds and signs for `req` under `serial`. */
  function ClientCertificateFor(ctx: Context, req: ClientRequest, serial: nat): (cert: Certificate)
    ensures cert.tbs.serial == serial
    ensures ChainsTo(cert, ctx.signingCertificate)
    ensures SubjectKeyIdentified(cert)
    ensures cert.tbs.subject == req.subject && cert.tbs.subjectKey == req.keyPair.public
    ensures cert.tbs.notBefore == req.now && cert.tbs.notAfter == req.validityEnd
    ensures cert.tbs.extensions == ClientExtensions(ctx.signingCertificate, req.keyPair.public)
    ensures cert.signatureAlgorithm == ctx.signatureAlgorithm && cert.signer == ctx.signingPrivateKey
  {
    var signing := ctx.signingCertificate;
    var tbs := Tbs(signing.tbs.subject, serial, req.now, req.validityEnd, req.subject,
                   req.keyPair.public, ClientExtensions(signing, req.keyPair.public));
    var cert := Certificate(tbs, ctx.signatureAlgorithm, ctx.signingPrivateKey);
    ClientIdentifiers(cert, signing);
    cert
  }

  /** A certificate carrying the client extension list for its own subject key and
      naming the signing certificate's subject as issuer chains to the signing
      certificate and identifies its subject key. */
  lemma ClientIdentifiers(cert: Certificate, signing: Certificate)
    requires cert.tbs.issuer == signing.tbs.subject
    requires cert.tbs.extensions == ClientExtensions(signing, cert.tbs.subjectKey)
    ensures ChainsTo(cert, signing)
    ensures SubjectKeyIdentified(cert)
  {
    ClientExtensionsDecode(signing, cert.tbs.subjectKey);
  }

  /** The outputs one issued client certificate registers: the certificate file (with
      the signing certificate after it only when an intermediate CA is configured),
      the private key under the resolved password, and the readme, which carries a
      password notice only when the password was auto-generated. */
  function ClientOutputs(files: map<string, Output>, ctx: Context, req: ClientRequest, cert: Certificate)
    : (r: map<string, Output>)
    ensures FilesFramed(files, r, {PemPath(req.fileName), KeyPath(req.fileName), ReadmePath})
    ensures var pem := r[PemPath(req.fileName)];
            && pem.password.None?
            && (|pem.entries| == 2 <==> ctx.intermediateConfigured)
            && (|pem.entries| == 1 <==> !ctx.intermediateConfigured)
            && pem.entries[0] == CertEntry(cert)
            && (ctx.intermediateConfigured ==> pem.entries[1] == CertEntry(ctx.signingCertificate))
    ensures r[KeyPath(req.fileName)] == Output(req.password, [KeyEntry(req.keyPair.private)])
    ensures var readme := r[ReadmePath];
            && readme.password.None?
            && (|readme.entries| == 2 <==> req.autoPassword)
            && (|readme.entries| == 1 <==> !req.autoPassword)
            && readme.entries[0] == ReadmeText
            && (req.autoPassword ==> readme.entries[1] == PasswordInfo(KeyPath(req.fileName), req.password))
  {
    ClientPathsDistinct(req.fileName);
    var keyPath := KeyPath(req.fileName);
    var pem := if !ctx.intermediateConfigured then Output(None, [CertEntry(cert)])
               else Output(None, [CertEntry(cert), CertEntry(ctx.signingCertificate)]);
    var f1 := AddOutput(files, PemPath(req.fileName), pem);
    var f2 := AddOutput(f1, keyPath, Output(req.password, [KeyEntry(req.keyPair.private)]));
    var f3 := AddOutput(f2, ReadmePath, Output(None, [ReadmeText]));
    if req.autoPassword then AppendOutput(f3, ReadmePath, PasswordInfo(keyPath, req.password))
    else f3
  }

  /** What the shared readme holds right after a client run that issued for `req`:
      the readme text, followed by this client's password notice exactly when its
      password was generated. */
  function ClientReadme(req: ClientRequest): (out: Output)
    ensures out.password.None? && |out.entries| > 0 && out.entries[0] == ReadmeText
    ensures PasswordInfo(KeyPath(req.fileName), req.password) in out.entries <==> req.autoPassword
  {
    if req.autoPassword then Output(None, [ReadmeText, PasswordInfo(KeyPath(req.fileName), req.password)])
    else Output(None, [ReadmeText])
  }

  /** The readme the client outputs register is this client's readme alone: whatever
      an earlier run registered under the shared path is replaced. */
  lemma ClientOutputsReadme(files: map<string, Output>, ctx: Context, req: ClientRequest, cert: Certificate)
    ensures var r := ClientOutputs(files, ctx, req, cert);
            ReadmePath in r && r[ReadmePath] == ClientReadme(req)
  {
    var readme := ClientOutputs(files, ctx, req, cert)[ReadmePath];
    if req.autoPassword {
      assert readme.entries == [ReadmeText, PasswordInfo(KeyPath(req.fileName), req.password)];
    } else {
      assert readme.entries == [ReadmeText];
    }
  }

  /** One run of the client task. */
  function IssueClient(ctx: Context, req: ClientRequest, st: RunState): (r: Step)
    // a declined overwrite ends the run before anything happens
    ensures r.outcome.Skipped? <==> !req.overwriteConfirmed
    ensures r.outcome.Skipped? ==> r.st == st
    // otherwise exactly one serial is taken, whether or not signing succeeds
    ensures !r.outcome.Skipped? ==> r.st.nextSerial == st.nextSerial + 1
    ensures r.outcome.Failed? <==>
              req.overwriteConfirmed && !ctx.provider.buildsSigner(ctx.signatureAlgorithm, ctx.signingPrivateKey)
    ensures r.outcome.Failed? ==> r.st == st.(nextSerial := st.nextSerial + 1)
    // the certificate and its outputs
    ensures r.outcome.Issued? ==>
              && r.outcome.cert == ClientCertificateFor(ctx, req, st.nextSerial)
              && r.st.files == ClientOutputs(st.files, ctx, req, r.outcome.cert)
    // the counters: one more certificate, the flag raised only by an auto-generated password
    ensures r.outcome.Issued? ==>
              && r.st.generatedCertificateCount as int == Wrap32(st.generatedCertificateCount as int + 1) as int
              && r.st.passwordAutoGenerated == (st.passwordAutoGenerated || req.autoPassword)
  {
    if !req.overwriteConfirmed then Step(st, Skipped)
    else
      var (serial, st1) := NextId(st);
      if !ctx.provider.buildsSigner(ctx.signatureAlgorithm, ctx.signingPrivateKey) then
        Step(st1, Failed(ComposingCertificateFailed))
      else
        var cert := ClientCertificateFor(ctx, req, serial);
        var flag := if req.autoPassword then true else st1.passwordAutoGenerated;
        Step(RunState(st1.nextSerial, Inc32(st1.generatedCertificateCount), flag,
                      ClientOutputs(st1.files, ctx, req, cert)),
             Issued(cert))
  }

  /** The client task never lowers the serial counter, never lowers the flag, and
      never drops a registered output file. */
  lemma ClientMonotone(ctx: Context, req: ClientRequest, st: RunState)
    ensures var r := IssueClient(ctx, req, st);
            && st.nextSerial <= r.st.nextSerial
            && (st.passwordAutoGenerated ==> r.st.passwordAutoGenerated)
            && st.files.Keys <= r.st.files.Keys
  {
  }

  /** Two client runs in a row that both issue hand out distinct serials, the
      first smaller than the second. */
  lemma SuccessiveClientSerials(ctx: Context, a: ClientRequest, b: ClientRequest, st: RunState)
    ensures var ra := IssueClient(ctx, a, st);
            var rb := IssueClient(ctx, b, ra.st);
            ra.outcome.Issued? && rb.outcome.Issued? ==>
              ra.outcome.cert.tbs.serial < rb.outcome.cert.tbs.serial
  {
  }
}
