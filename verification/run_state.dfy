/** The state one tool invocation threads through its issuance tasks: the serial
    counter behind the context's `nextId()`, the client task's two static fields,
    and the output files registered so far. Also the context the tasks read. */
module Run {
  import opened X509

  /** Java's `int`. */
  newtype Int32 = x: int | -0x8000_0000 <= x < 0x8000_0000

  const MinInt32: Int32 := -0x8000_0000
  const MaxInt32: Int32 := 0x7fff_ffff

  /** The 32-bit two's-complement value of `n`, as Java int arithmetic produces it. */
  function Wrap32(n: int): (r: Int32)
    ensures (r as int - n) % 0x1_0000_0000 == 0
    ensures MinInt32 as int <= n <= MaxInt32 as int ==> r as int == n
  {
    ((n + 0x8000_0000) % 0x1_0000_0000 - 0x8000_0000) as Int32
  }

  /** Java's `x++` on an int: plus one, wrapping from the largest value to the smallest. */
  function Inc32(x: Int32): (r: Int32)
    ensures r as int == Wrap32(x as int + 1) as int
    ensures x < MaxInt32 ==> r as int == x as int + 1
    ensures x == MaxInt32 ==> r == MinInt32
  {
    if x == MaxInt32 then MinInt32 else x + 1
  }

  /** Wrapping after each step or once at the end gives the same int. */
  lemma Wrap32Absorbs(a: int, b: int)
    ensures Wrap32(Wrap32(a) as int + b) == Wrap32(a + b)
  {
    var m := 0x1_0000_0000;
    var w := Wrap32(a) as int;
    var k := (w - a) / m;
    assert w == a + k * m;
    ModShift32(a + b + 0x8000_0000, k);
  }

  lemma ModShift32(n: int, k: int)
    ensures (n + k * 0x1_0000_0000) % 0x1_0000_0000 == n % 0x1_0000_0000
  {
  }

  /** One entry of an output file. */
  datatype Entry =
    | CertEntry(cert: Certificate)
    | KeyEntry(key: PrivateKey)
    | ReadmeText                                           // the client readme's fixed text
    | PasswordInfo(keyFile: string, password: Option<string>)  // one generated-password notice

  /** A registered output file: the password its private keys are encrypted under, if
      any, and its entries in order. */
  datatype Output = Output(password: Option<string>, entries: seq<Entry>)

  datatype RunState = RunState(
    nextSerial: nat,                    // the value `nextId()` hands out next
    generatedCertificateCount: Int32,   // static in the client task
    passwordAutoGenerated: bool,        // static in the client task
    files: map<string, Output>)         // path relative to the target directory

  /** The client task's statics as the class initialises them: no certificate counted
      and no password generated yet. */
  function StaticsAtClassLoad(st: RunState): (r: bool)
    ensures r ==> Inc32(st.generatedCertificateCount) == 1
  {
    st.generatedCertificateCount == 0 && !st.passwordAutoGenerated
  }

  /** `nextId()`: the current serial, with the counter advanced past it. */
  function NextId(st: RunState): (r: (nat, RunState))
    ensures r.1 == st.(nextSerial := r.1.nextSerial)
    ensures r.0 == st.nextSerial && r.0 < r.1.nextSerial
  {
    (st.nextSerial, st.(nextSerial := st.nextSerial + 1))
  }

  /** `addOutputFile` / `addEncryptedOutputFile`: register `path` with this content,
      replacing what was registered under it. */
  function AddOutput(files: map<string, Output>, path: string, out: Output): (r: map<string, Output>)
    ensures r.Keys == files.Keys + {path} && r[path] == out
    ensures forall p | p in files && p != path :: r[p] == files[p]
  {
    files[path := out]
  }

  /** `appendOutputFile`: add one entry at the end of what is registered under `path`. */
  function AppendOutput(files: map<string, Output>, path: string, e: Entry): (r: map<string, Output>)
    ensures r.Keys == files.Keys + {path}
    ensures path in files ==> r[path] == files[path].(entries := files[path].entries + [e])
    ensures path !in files ==> r[path] == Output(None, [e])
    ensures forall p | p in files && p != path :: r[p] == files[p]
  {
    if path in files then files[path := files[path].(entries := files[path].entries + [e])]
    else files[path := Output(None, [e])]
  }

  /** The private-key file of an identity, relative to the target directory: the
      file name, then a four-character suffix. */
  function KeyPath(fileName: string): (p: string)
    ensures |p| == |fileName| + 4 && p[..|fileName|] == fileName
  {
    fileName + ".key"
  }

  /** The certificate file of an identity, relative to the target directory: the
      file name, then a four-character suffix. */
  function PemPath(fileName: string): (p: string)
    ensures |p| == |fileName| + 4 && p[..|fileName|] == fileName
  {
    fileName + ".pem"
  }

  /** Different identities never share a key file or a certificate file. */
  lemma IdentityPathsInjective(a: string, b: string)
    ensures KeyPath(a) == KeyPath(b) ==> a == b
    ensures PemPath(a) == PemPath(b) ==> a == b
  {
  }

  lemma KeyAndPemDistinct(fileName: string)
    ensures KeyPath(fileName) != PemPath(fileName)
  {
    assert KeyPath(fileName)[|fileName| + 1] == 'k' && PemPath(fileName)[|fileName| + 1] == 'p';
  }

  /** `after` registers `paths` in addition to what `before` registered, and every
      other registered file is left as it was. */
  predicate FilesFramed(before: map<string, Output>, after: map<string, Output>, paths: set<string>) {
    && after.Keys == before.Keys + paths
    && forall p | p in before && p !in paths :: after[p] == before[p]
  }

  /** The security provider: whether a content signer can be built for an algorithm
      name and a private key (when it cannot, the source sees OperatorCreationException). */
  datatype Provider = Provider(buildsSigner: (string, PrivateKey) -> bool)

  /** What the tasks read from the shared context and configuration. */
  datatype Context = Context(
    signingCertificate: Certificate,
    signingPrivateKey: PrivateKey,
    signatureAlgorithm: string,     // the configured default signature algorithm
    intermediateConfigured: bool,   // the CA configuration names an intermediate CA
    provider: Provider)

  /** The one checked failure a task reports: "Error while composing certificate". */
  datatype ToolError = ComposingCertificateFailed

  /** How one task ended. */
  datatype Outcome = Skipped | Issued(cert: Certificate) | Failed(error: ToolError)

  /** The state after a task, and how it ended. The state is returned on failure too:
      a serial taken before the failure stays taken. */
  datatype Step = Step(st: RunState, outcome: Outcome)
}
