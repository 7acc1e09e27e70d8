# Certificate issuance in the Search Guard TLS tool, modelled in Dafny

The TLS tool issues X.509 certificates from a locally held signing authority. This
project models its two leaf-certificate tasks, `CreateClientCertificate.run()` and
`CreateNodeCertificate.run()`, together with the state they share in one invocation:

- the serial counter behind `ctx.nextId()`;
- the client task's static `generatedCertificateCount` (a Java `int`) and
  `passwordAutoGenerated` flag, read through its two static getters;
- the output files the tasks register.

The Java statics become fields of an explicit `RunState` record. Each run is a pure
function from a context, a request and a state to the next state and an outcome
(`Skipped`, `Issued(cert)` or `Failed(ComposingCertificateFailed)`).

Cryptography is symbolic. A key pair is an input. The subject key identifier of a
key is the term `SubjectKeyIdOf(key)`. The authority key identifier of a certificate
is the term `AuthorityKeyIdOf(cert)`. A signature is recorded as the algorithm name
and the private key that made it. Equal terms therefore mean equal inputs, which
treats the key-identifier hash as collision-free.

Modules, leaves first:

- `X509` (`x509.dfy`): keys, names, extensions as the closed datatype
  `Ext = AKI | SKI | BC | KU | EKU | SAN`, certificates, and lookup of an extension
  by OID. Also BouncyCastle's integer encoding of key-usage bits, with its decoding.
- `ExtensionPolicy` (`extension_policy.dfy`): the ordered (extension, critical)
  lists of the two tasks.
- `Run` (`run_state.dfy`): Java `int` arithmetic, run state, `nextId()`, output
  registration, the context, outcomes.
- `ClientCertificate`, `NodeCertificate`: one run of each task.
- `Sequential`: several tasks in a row sharing one state. Serial uniqueness, the
  certificate count, the password flag and the shared readme across a whole
  invocation.
- `LeafPolicy` (`leaf_policy.dfy`): the intended leaf-certificate policy, one rule
  per predicate, with lemmas that show where the code as written meets or misses
  each one.

The model follows the code as written. Where the code departs from the intended
leaf-certificate policy, the code is modelled and the rule is a predicate in
`LeafPolicy`, with its own basis:

- The node task always adds a SubjectAlternativeName extension, even for an empty
  name list. Section 4.2.1.6 of RFC 5280 requires a present extension to hold at
  least one name.
- The node task uses `BasicConstraints(0)`. That is BouncyCastle's path-length
  constructor, so the value is cA = true with path length 0. Section 4.2.1.9 of
  RFC 5280 reserves the cA flag for certificates whose key signs certificates.
- Both tasks mark ExtendedKeyUsage critical. The rule keeps only BasicConstraints
  and KeyUsage critical. Section 4.2.1.3 of RFC 5280 asks for a critical
  KeyUsage. Section 4.2.1.12 allows either choice for ExtendedKeyUsage, so this
  rule is a policy choice, not an RFC requirement.
- The node task hands the certificate builder an end date 730 milliseconds after a
  second clock reading. The source marks that line with a TODO
  (`CreateNodeCertificate.java:42`). The encoded certificate keeps whole seconds,
  so with equal readings it is valid for one second, or for none when the
  reading's millisecond part is below 270 (`NodeCertificate.NodeEncodedWindow`).
  The client task computes its end date from a number of days.
- The node certificate's subject public key is the signing certificate's key,
  while its SKI is computed from the node's own key.
- The node certificate is signed with the node's own private key under the fixed
  algorithm `SHA1withRSA`.
- The node task has no overwrite check and writes its private key unencrypted.
- The client `.pem` puts the signing certificate after the client certificate.
  The node `.pem` puts it before the node certificate.

Each client run registers `client-certificates.readme` afresh with `addOutputFile`
and then appends that client's password notice. This assumes `addOutputFile`
replaces what is registered under a path. Under that reading, the readme at the end
of a run holds the notice of the last issued client only
(`Sequential.ReadmeAfterRun`). A later client without a generated password
therefore leaves no notice at all, while the flag still reports that a password
was generated (`Sequential.LaterClientDropsNotice`).

## Model

| member | source | states |
|---|---|---|
| X509.UsageBits | src/main/java/com/floragunn/searchguard/tools/tlstool/tasks/CreateClientCertificate.java:82-84 | `new KeyUsage(mask)` asserts exactly the bits whose BouncyCastle constant is set in the mask |
| X509.UsageRoundTrip | src/main/java/com/floragunn/searchguard/tools/tlstool/tasks/CreateClientCertificate.java:82-84 | ORing the constants of any set of key-usage bits and decoding the result gives back that set |
| X509.UsageMaskOf | src/main/java/com/floragunn/searchguard/tools/tlstool/tasks/CreateClientCertificate.java:83-84 | ORing BouncyCastle's key-usage constants never sets bits 8 to 14, which no constant uses |
| X509.MaskOfHasBit | src/main/java/com/floragunn/searchguard/tools/tlstool/tasks/CreateClientCertificate.java:83-84 | a bit's constant is set in the OR of a bit set exactly when the bit is in the set |
| X509.ConstraintsOfFlag | src/main/java/com/floragunn/searchguard/tools/tlstool/tasks/CreateClientCertificate.java:81 | `new BasicConstraints(false)` is a non-CA constraint without path length |
| X509.ConstraintsOfPathLen | src/main/java/com/floragunn/searchguard/tools/tlstool/tasks/CreateNodeCertificate.java:51 | `new BasicConstraints(0)` is BouncyCastle's path-length constructor: cA is set and the path length is 0 |
| X509.EncodedSeconds | src/main/java/com/floragunn/searchguard/tools/tlstool/tasks/CreateNodeCertificate.java:42 | a builder date is encoded as the whole second it falls in, rounded down |
| ExtensionPolicy.LeafUsageDecodes | src/main/java/com/floragunn/searchguard/tools/tlstool/tasks/CreateClientCertificate.java:82-84 | digitalSignature OR nonRepudiation OR keyEncipherment decodes to exactly those three bits, without keyCertSign or cRLSign |
| ExtensionPolicy.ClientExtensions | src/main/java/com/floragunn/searchguard/tools/tlstool/tasks/CreateClientCertificate.java:77-86 | the client list is AKI, SKI, BasicConstraints, KeyUsage, ExtendedKeyUsage in that order with no OID twice; only AKI and SKI are non-critical; the AKI comes from the signing certificate and the SKI from the client key; BasicConstraints is non-CA without path length; KeyUsage is the three leaf bits; ExtendedKeyUsage is exactly [clientAuth] |
| ExtensionPolicy.NodeExtensions | src/main/java/com/floragunn/searchguard/tools/tlstool/tasks/CreateNodeCertificate.java:47-59 | the node list is the client's five kinds plus SubjectAlternativeName, with flags false, false, true, true, true, false; BasicConstraints is cA with path length 0; ExtendedKeyUsage is [serverAuth, clientAuth]; the SAN carries the given names, even none |
| ExtensionPolicy.NodeAgainstClient | src/main/java/com/floragunn/searchguard/tools/tlstool/tasks/CreateNodeCertificate.java:47-56 | node and client lists agree on AKI, SKI and KeyUsage and differ on BasicConstraints and ExtendedKeyUsage |
| ExtensionPolicy.ClientExtensionsDecode | src/main/java/com/floragunn/searchguard/tools/tlstool/tasks/CreateClientCertificate.java:77-86 | a reader looking extensions up by OID finds the leaf key usages, [clientAuth], a non-CA constraint, the two key identifiers and no SAN |
| ExtensionPolicy.NodeExtensionsDecode | src/main/java/com/floragunn/searchguard/tools/tlstool/tasks/CreateNodeCertificate.java:47-59 | a reader looking extensions up by OID finds the leaf key usages, [serverAuth, clientAuth], a CA constraint with path length 0, the key identifiers and the SAN with exactly the supplied names |
| Run.Wrap32 | src/main/java/com/floragunn/searchguard/tools/tlstool/tasks/CreateClientCertificate.java:44 | the Java `int` value of an integer is congruent to it modulo 2^32 and equal to it when in range |
| Run.Inc32 | src/main/java/com/floragunn/searchguard/tools/tlstool/tasks/CreateClientCertificate.java:108 | `generatedCertificateCount++` adds one, wrapping from the largest int to the smallest |
| Run.Wrap32Absorbs | src/main/java/com/floragunn/searchguard/tools/tlstool/tasks/CreateClientCertificate.java:108 | wrapping after every increment equals wrapping once at the end |
| Run.StaticsAtClassLoad | src/main/java/com/floragunn/searchguard/tools/tlstool/tasks/CreateClientCertificate.java:44-45 | the statics as the class initialises them: count 0 and flag false, so the first issued client makes the count 1 |
| Run.NextId | src/main/java/com/floragunn/searchguard/tools/tlstool/tasks/CreateClientCertificate.java:72-73 | `nextId()` hands out the current serial and leaves a strictly larger counter, touching nothing else |
| Run.AddOutput | src/main/java/com/floragunn/searchguard/tools/tlstool/tasks/CreateClientCertificate.java:95-101 | `addOutputFile` and `addEncryptedOutputFile` register the path with exactly the given content, replacing any earlier registration, and leave every other path as it was |
| Run.AppendOutput | src/main/java/com/floragunn/searchguard/tools/tlstool/tasks/CreateClientCertificate.java:103-104 | `appendOutputFile` adds the entry at the end of what the path holds, or registers it alone if the path is new, and leaves every other path as it was |
| Run.KeyPath | src/main/java/com/floragunn/searchguard/tools/tlstool/tasks/CreateClientCertificate.java:55-56 | the key file is the identity's file name followed by a four-character suffix |
| Run.PemPath | src/main/java/com/floragunn/searchguard/tools/tlstool/tasks/CreateNodeCertificate.java:64-65 | the certificate file is the identity's file name followed by a four-character suffix |
| Run.IdentityPathsInjective | src/main/java/com/floragunn/searchguard/tools/tlstool/tasks/CreateNodeCertificate.java:64-65 | two identities with different file names never share a `.key` or a `.pem` path |
| Run.KeyAndPemDistinct | src/main/java/com/floragunn/searchguard/tools/tlstool/tasks/CreateNodeCertificate.java:64-65 | an identity's `.key` and `.pem` paths never coincide |
| ClientCertificate.ClientPathsDistinct | src/main/java/com/floragunn/searchguard/tools/tlstool/tasks/CreateClientCertificate.java:55-57 | the client's `.key`, `.pem` and `client-certificates.readme` paths are pairwise distinct for every file name |
| ClientCertificate.ClientCertificateFor | src/main/java/com/floragunn/searchguard/tools/tlstool/tasks/CreateClientCertificate.java:63-90 | the client certificate has the given serial, the signing certificate's subject as issuer with a matching AKI, the client key as subject key with a matching SKI, the client DN, the [now, end date] window, the client extension list, and the configured algorithm with the signing key |
| ClientCertificate.ClientIdentifiers | src/main/java/com/floragunn/searchguard/tools/tlstool/tasks/CreateClientCertificate.java:77-80 | a certificate with the client extension list, issued under the signing certificate's subject, chains to the signing certificate and its SKI names its own subject key |
| ClientCertificate.ClientOutputs | src/main/java/com/floragunn/searchguard/tools/tlstool/tasks/CreateClientCertificate.java:92-106 | registers exactly the `.pem`, `.key` and readme paths and leaves every other file alone; the `.pem` has the signing certificate after the client certificate iff an intermediate CA is configured; the key is under the resolved password; the readme gets a password notice iff auto-generation is enabled |
| ClientCertificate.ClientReadme | src/main/java/com/floragunn/searchguard/tools/tlstool/tasks/CreateClientCertificate.java:101-104 | the readme a client run leaves starts with the readme text, is unencrypted, and holds this client's password notice exactly when its password was generated |
| ClientCertificate.ClientOutputsReadme | src/main/java/com/floragunn/searchguard/tools/tlstool/tasks/CreateClientCertificate.java:101-104 | after a client's outputs are registered, the shared readme is that client's readme alone, whatever was registered there before |
| ClientCertificate.IssueClient | src/main/java/com/floragunn/searchguard/tools/tlstool/tasks/CreateClientCertificate.java:52-113 | declined overwrite iff skipped, and then nothing changes; otherwise exactly one serial is taken; signer failure burns that serial and changes nothing else; on success the certificate and outputs are as above, the count rises by one as a Java int, and the flag becomes true iff it was true or the password was generated |
| ClientCertificate.ClientMonotone | src/main/java/com/floragunn/searchguard/tools/tlstool/tasks/CreateClientCertificate.java:103-108 | a client run never lowers the serial counter, never clears the flag and never drops a registered file |
| ClientCertificate.SuccessiveClientSerials | src/main/java/com/floragunn/searchguard/tools/tlstool/tasks/CreateClientCertificate.java:72-73 | two successive issued client certificates get distinct, increasing serials |
| NodeCertificate.NodeCertificateFor | src/main/java/com/floragunn/searchguard/tools/tlstool/tasks/CreateNodeCertificate.java:36-62 | the node certificate has the signing certificate's subject as issuer with a matching AKI and the signing certificate's public key as subject key; its SKI names that key iff the node key is the signing certificate's key; the dates handed to the builder are the first clock reading and 730 ms after the second; it is signed `SHA1withRSA` with the node's own private key |
| NodeCertificate.NodeIdentifiers | src/main/java/com/floragunn/searchguard/tools/tlstool/tasks/CreateNodeCertificate.java:47-50 | a certificate with the node extension list chains to the signing certificate, and its SKI names its subject key exactly when that key is the node's own |
| NodeCertificate.NodeOutputs | src/main/java/com/floragunn/searchguard/tools/tlstool/tasks/CreateNodeCertificate.java:64-65 | registers exactly `<name>.key` with the unencrypted private key and `<name>.pem` with the signing certificate followed by the node certificate |
| NodeCertificate.IssueNode | src/main/java/com/floragunn/searchguard/tools/tlstool/tasks/CreateNodeCertificate.java:34-70 | never skipped; exactly one serial taken; client count and flag untouched; fails iff no signer can be built for `SHA1withRSA` and the node key, then changing nothing but the serial; otherwise issues the certificate and outputs above |
| NodeCertificate.NodeIgnoresConfiguredDefaults | src/main/java/com/floragunn/searchguard/tools/tlstool/tasks/CreateNodeCertificate.java:61-65 | the node run does not depend on the configured signature algorithm or on whether an intermediate CA is configured |
| NodeCertificate.NodeValidityWindow | src/main/java/com/floragunn/searchguard/tools/tlstool/tasks/CreateNodeCertificate.java:41-43 | the dates handed to the builder span 730 ms plus the time between the two clock readings: exactly 730 ms for equal readings, non-empty whenever the clock does not run backwards |
| NodeCertificate.NodeEncodedWindow | src/main/java/com/floragunn/searchguard/tools/tlstool/tasks/CreateNodeCertificate.java:42 | in whole encoded seconds, equal clock readings give a window of 1 s when the millisecond part is at least 270 and of 0 s below that; the window is never negative when the clock does not run backwards |
| Sequential.Perform | src/main/java/com/floragunn/searchguard/tools/tlstool/tasks/CreateClientCertificate.java:103-108 | either task advances the shared state as a trace step requires, and an issued certificate chains to the signing certificate |
| Sequential.RunTasks | src/main/java/com/floragunn/searchguard/tools/tlstool/tasks/CreateClientCertificate.java:44-45 | one step per task, in order, each task starting from the state the previous one left |
| Sequential.RunTasksPrefix | src/main/java/com/floragunn/searchguard/tools/tlstool/tasks/CreateClientCertificate.java:44-45 | running the first k tasks gives exactly the first k steps of running them all |
| Sequential.TracePrefix | src/main/java/com/floragunn/searchguard/tools/tlstool/tasks/CreateClientCertificate.java:72-73 | every prefix of a trace is a trace of the matching tasks, so the serial, count and flag properties hold part-way through a run |
| Sequential.RunTasksIsTrace | src/main/java/com/floragunn/searchguard/tools/tlstool/tasks/CreateClientCertificate.java:44-45 | running tasks one after another threads the shared state so that every step starts where the previous one ended |
| Sequential.SerialsStrictlyIncrease | src/main/java/com/floragunn/searchguard/tools/tlstool/tasks/CreateClientCertificate.java:72-73 | in any run of client and node tasks, the serials of issued certificates strictly increase, so no serial repeats |
| Sequential.IssuedCertificatesChain | src/main/java/com/floragunn/searchguard/tools/tlstool/tasks/CreateClientCertificate.java:72-78 | every certificate issued in a run names the signing certificate's subject as issuer and carries its AKI |
| Sequential.CountTracksIssuedClients | src/main/java/com/floragunn/searchguard/tools/tlstool/tasks/CreateClientCertificate.java:108-117 | at the end of a run the count equals, as a Java int, its start value plus the number of issued client certificates |
| Sequential.FlagTracksAutoPasswords | src/main/java/com/floragunn/searchguard/tools/tlstool/tasks/CreateClientCertificate.java:103-121 | at the end of a run the flag is set iff it was set at the start or some issued client certificate had a generated password |
| Sequential.GettersAfterProcess | src/main/java/com/floragunn/searchguard/tools/tlstool/tasks/CreateClientCertificate.java:115-121 | starting from the statics as the class initialises them (count 0, flag false, lines 44-45), the getters report the number of issued client certificates as a Java int and whether any had a generated password |
| Sequential.LastIssuedClient | src/main/java/com/floragunn/searchguard/tools/tlstool/tasks/CreateClientCertificate.java:101-106 | names the last task that issued a client certificate, with no issued client after it, or none when no client was issued |
| Sequential.ReadmeTracePrefix | src/main/java/com/floragunn/searchguard/tools/tlstool/tasks/CreateClientCertificate.java:101-104 | every prefix of a readme trace is a readme trace of the matching tasks, so the readme property holds part-way through a run |
| Sequential.ReadmeAfterRun | src/main/java/com/floragunn/searchguard/tools/tlstool/tasks/CreateClientCertificate.java:101-104 | at the end of a run the readme is the last issued client's readme; with no issued client it is as it was at the start |
| Sequential.LaterClientDropsNotice | src/main/java/com/floragunn/searchguard/tools/tlstool/tasks/CreateClientCertificate.java:101-106 | a client with a generated password followed by one without: both issued, the flag set, and the readme holds only the readme text, without the first client's notice |
| LeafPolicy.NodeSanAgainstPolicy | src/main/java/com/floragunn/searchguard/tools/tlstool/tasks/CreateNodeCertificate.java:58-59 | the node list meets the rule "SAN iff names" (section 4.2.1.6 of RFC 5280) exactly when the name list is non-empty |
| LeafPolicy.ClientSanMeetsPolicy | src/main/java/com/floragunn/searchguard/tools/tlstool/tasks/CreateClientCertificate.java:77-86 | the client list has no SAN extension |
| LeafPolicy.LeafConstraintsAgainstPolicy | src/main/java/com/floragunn/searchguard/tools/tlstool/tasks/CreateNodeCertificate.java:51 | the client BasicConstraints meets the non-CA leaf rule of section 4.2.1.9 of RFC 5280 and the node BasicConstraints never does |
| LeafPolicy.CriticalityAgainstPolicy | src/main/java/com/floragunn/searchguard/tools/tlstool/tasks/CreateNodeCertificate.java:55-56 | neither list meets the policy rule that only BasicConstraints and KeyUsage are critical, because ExtendedKeyUsage is critical |
| LeafPolicy.NodeValidityAgainstPolicy | src/main/java/com/floragunn/searchguard/tools/tlstool/tasks/CreateNodeCertificate.java:42 | with equal clock readings the encoded node validity is no positive number of days; it is zero days exactly when the millisecond part of the reading is below 270 |
| LeafPolicy.SignerAgainstPolicy | src/main/java/com/floragunn/searchguard/tools/tlstool/tasks/CreateNodeCertificate.java:61-62 | the client certificate is signed by the authority key under the configured algorithm; the node certificate is so only if the node key is the authority key and the configured algorithm is SHA1withRSA |

## Left out

- Key-pair generation, SKI and AKI hashing, DER encoding and signing are
  BouncyCastle and are not modelled. Keys are inputs and the rest are symbolic terms.
- The base-class helpers are not part of this model. Their results arrive as request
  fields: DN rendering, end-date computation, password resolution,
  password auto-generation, the overwrite check, SAN-list construction and the
  client and node file names.
- `addOutputFile`, `addEncryptedOutputFile` and `appendOutputFile` are not part
  of this model. They are modelled as map updates: add replaces or creates, append
  adds an entry at the end. No file is written.
- ClientCertificate.ClientOutputs: its readme clause, and with it
  `Sequential.ReadmeAfterRun` and `Sequential.LaterClientDropsNotice`, rests on the
  assumed replace behaviour of the unseen `addOutputFile`. If that helper merged
  entries instead, earlier password notices would survive.
- `createReadme()` and `createPasswordInfo(...)` are opaque entries. The password
  notice records the key file and the password it was given.
- The wall clock is an input. The node task reads it twice, so it takes two readings.
- `Context` is not part of this model. Each run calls `ctx.nextId()` once
  (`CreateClientCertificate.java:73`, `CreateNodeCertificate.java:42`). Modelling it
  as a counter that hands out its value and advances by one is an assumption about
  the unseen `Context`.
- CertIOException from `addExtension` (a failure to encode an extension value) is
  not modelled. It would come after `nextId()`, so its effect on the state would be
  the same as the modelled signer failure. OperatorCreationException is modelled
  as the provider refusing to build a signer.
- The security provider is reduced to that yes/no answer.
- Exceptions other than the two checked ones the tasks catch are not modelled.
- `Sequential.RunTasks` continues after a failed task. The tool's driver loop is not
  part of this model. Running fewer tasks gives a prefix of the steps
  (`Sequential.RunTasksPrefix`), and every prefix of a trace is a trace
  (`Sequential.TracePrefix`, `Sequential.ReadmeTracePrefix`). So the serial, count,
  flag and readme properties also hold if the driver stops at the first failure.
- NodeCertificate.NodeValidityWindow: the `Tbs` times are the `Date` values handed
  to the certificate builder, in milliseconds. The encoded certificate truncates each
  to whole seconds, so with equal clock readings the node window is 0 or 1 s, not
  730 ms. `NodeCertificate.NodeEncodedWindow` and `LeafPolicy.NodeValidityAgainstPolicy`
  state the encoded window; the date encoding itself is BouncyCastle's and is only
  modelled as `X509.EncodedSeconds`.
- Output paths: the client builds its paths with `new File(ctx.getTargetDirectory(), …)`
  (`CreateClientCertificate.java:55-57`), while the node passes a bare file name to
  the `addOutputFile(String, …)` overload (`CreateNodeCertificate.java:64-65`). The
  model puts both in one namespace relative to the target directory. This assumes
  the unseen overload resolves its name against that directory;
  `Sequential.NodeReadmeStep` relies on it.
- LeafPolicy.SignerAgainstPolicy: compares signature-algorithm names as exact
  strings. JCA algorithm names are case-insensitive, so a configured `sha1withrsa`
  would count as a different algorithm here.
