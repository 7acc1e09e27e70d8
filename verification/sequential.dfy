/** Several issuance tasks run one after another in one invocation, sharing the
    serial counter, the client task's static counters and the registered outputs. */
module Sequential {
  import opened X509
  import opened Run
  import opened ClientCertificate
  import opened NodeCertificate

  datatype Task = ClientTask(client: ClientRequest) | NodeTask(node: NodeRequest)

  /** What one step promises about the shared state it hands on: one serial per
      task that got past the overwrite check, the issued certificate carrying the
      serial it took, the count raised only by an issued client certificate, and the
      flag raised only by an issued client certificate with a generated password. */
  predicate Advances(t: Task, before: RunState, s: Step) {
    && s.st.nextSerial == before.nextSerial + (if s.outcome.Skipped? then 0 else 1)
    && (s.outcome.Issued? ==> s.outcome.cert.tbs.serial == before.nextSerial)
    && s.st.generatedCertificateCount ==
         (if t.ClientTask? && s.outcome.Issued? then Inc32(before.generatedCertificateCount)
          else before.generatedCertificateCount)
    && s.st.passwordAutoGenerated ==
         (before.passwordAutoGenerated || (t.ClientTask? && s.outcome.Issued? && t.client.autoPassword))
  }

  /** Run one task of either kind. */
  function Perform(ctx: Context, t: Task, st: RunState): (r: Step)
    ensures Advances(t, st, r)
    ensures r.outcome.Issued? ==> ChainsTo(r.outcome.cert, ctx.signingCertificate)
  {
    match t
    case ClientTask(c) => IssueClient(ctx, c, st)
    case NodeTask(n) => IssueNode(ctx, n, st)
  }

  /** The steps of running `tasks` in order from `st`; each task sees the state the
      previous one left, and a failed task does not stop the ones after it. */
  function RunTasks(ctx: Context, tasks: seq<Task>, st: RunState): (steps: seq<Step>)
    ensures |steps| == |tasks|
    decreases |tasks|
  {
    if |tasks| == 0 then []
    else
      var s := Perform(ctx, tasks[0], st);
      [s] + RunTasks(ctx, tasks[1..], s.st)
  }

  function FinalState(st: RunState, steps: seq<Step>): RunState {
    if |steps| == 0 then st else steps[|steps| - 1].st
  }

  /** `steps` is a run of `tasks` from `st` as far as the shared state is concerned:
      each step advances the state the previous one left. */
  predicate IsTrace(tasks: seq<Task>, st: RunState, steps: seq<Step>)
    decreases |steps|
  {
    && |steps| == |tasks|
    && (|steps| > 0 ==>
          && Advances(tasks[0], st, steps[0])
          && IsTrace(tasks[1..], steps[0].st, steps[1..]))
  }

  lemma TraceTail(tasks: seq<Task>, st: RunState, steps: seq<Step>)
    requires IsTrace(tasks, st, steps) && |steps| > 0
    ensures Advances(tasks[0], st, steps[0])
    ensures IsTrace(tasks[1..], steps[0].st, steps[1..])
    ensures FinalState(st, steps) == FinalState(steps[0].st, steps[1..])
  {
  }

  /** Running the tasks produces a trace. */
  lemma {:induction false} RunTasksIsTrace(ctx: Context, tasks: seq<Task>, st: RunState)
    ensures IsTrace(tasks, st, RunTasks(ctx, tasks, st))
    decreases |tasks|
  {
    if |tasks| != 0 {
      var s := Perform(ctx, tasks[0], st);
      RunTasksIsTrace(ctx, tasks[1..], s.st);
      assert RunTasks(ctx, tasks, st) == [s] + RunTasks(ctx, tasks[1..], s.st);
    }
  }

  /** Every prefix of a trace is a trace of the matching prefix of the tasks, so each
      property proved over traces also holds part-way through a run. */
  lemma {:induction false} TracePrefix(tasks: seq<Task>, st: RunState, steps: seq<Step>, k: nat)
    requires IsTrace(tasks, st, steps) && k <= |steps|
    ensures IsTrace(tasks[..k], st, steps[..k])
    decreases k
  {
    if k > 0 {
      TraceTail(tasks, st, steps);
      TracePrefix(tasks[1..], steps[0].st, steps[1..], k - 1);
      assert tasks[..k][1..] == tasks[1..][..k - 1];
      assert steps[..k][1..] == steps[1..][..k - 1];
    }
  }

  /** Running the first `k` tasks gives the first `k` steps of running them all: a
      driver that stops early sees a prefix of the full run. */
  lemma {:induction false} RunTasksPrefix(ctx: Context, tasks: seq<Task>, st: RunState, k: nat)
    requires k <= |tasks|
    ensures RunTasks(ctx, tasks[..k], st) == RunTasks(ctx, tasks, st)[..k]
    decreases k
  {
    if k > 0 {
      var s := Perform(ctx, tasks[0], st);
      RunTasksPrefix(ctx, tasks[1..], s.st, k - 1);
      assert tasks[..k][1..] == tasks[1..][..k - 1];
      assert RunTasks(ctx, tasks, st) == [s] + RunTasks(ctx, tasks[1..], s.st);
    }
  }

  /** How many of the tasks are client tasks that issued a certificate. */
  function IssuedClients(tasks: seq<Task>, steps: seq<Step>): nat
    requires |tasks| == |steps|
  {
    if |tasks| == 0 then 0
    else (if tasks[0].ClientTask? && steps[0].outcome.Issued? then 1 else 0)
         + IssuedClients(tasks[1..], steps[1..])
  }

  lemma {:induction false} SerialsAtLeastStart(tasks: seq<Task>, st: RunState, steps: seq<Step>)
    requires IsTrace(tasks, st, steps)
    ensures st.nextSerial <= FinalState(st, steps).nextSerial
    ensures forall i | 0 <= i < |steps| && steps[i].outcome.Issued? ::
              st.nextSerial <= steps[i].outcome.cert.tbs.serial
    decreases |tasks|
  {
    if |tasks| != 0 {
      TraceTail(tasks, st, steps);
      SerialsAtLeastStart(tasks[1..], steps[0].st, steps[1..]);
      forall i | 0 < i < |steps| ensures steps[i] == steps[1..][i - 1] { }
    }
  }

  /** Every certificate issued in one invocation has a serial of its own: serials
      strictly increase in issuing order. */
  lemma {:induction false} SerialsStrictlyIncrease(tasks: seq<Task>, st: RunState, steps: seq<Step>)
    requires IsTrace(tasks, st, steps)
    ensures forall i, j | 0 <= i < j < |steps| && steps[i].outcome.Issued? && steps[j].outcome.Issued? ::
              steps[i].outcome.cert.tbs.serial < steps[j].outcome.cert.tbs.serial
    decreases |tasks|
  {
    if |tasks| != 0 {
      var rest := steps[1..];
      TraceTail(tasks, st, steps);
      SerialsStrictlyIncrease(tasks[1..], steps[0].st, rest);
      SerialsAtLeastStart(tasks[1..], steps[0].st, rest);
      forall i, j | 0 <= i < j < |steps| && steps[i].outcome.Issued? && steps[j].outcome.Issued?
        ensures steps[i].outcome.cert.tbs.serial < steps[j].outcome.cert.tbs.serial
      {
        assert steps[j] == rest[j - 1];
        if i > 0 {
          assert steps[i] == rest[i - 1];
        }
      }
    }
  }

  /** Every certificate issued in one invocation chains to the signing certificate. */
  lemma {:induction false} IssuedCertificatesChain(ctx: Context, tasks: seq<Task>, st: RunState, steps: seq<Step>)
    requires steps == RunTasks(ctx, tasks, st)
    ensures forall i | 0 <= i < |steps| && steps[i].outcome.Issued? ::
              ChainsTo(steps[i].outcome.cert, ctx.signingCertificate)
    decreases |tasks|
  {
    if |tasks| != 0 {
      var s := Perform(ctx, tasks[0], st);
      var rest := RunTasks(ctx, tasks[1..], s.st);
      assert steps == [s] + rest;
      IssuedCertificatesChain(ctx, tasks[1..], s.st, rest);
      forall i | 0 < i < |steps| ensures steps[i] == rest[i - 1] { }
    }
  }

  /** The count after one step, in terms of the count before it. */
  lemma CountStep(t: Task, before: RunState, s: Step, first: nat)
    requires Advances(t, before, s)
    requires first == if t.ClientTask? && s.outcome.Issued? then 1 else 0
    ensures s.st.generatedCertificateCount == Wrap32(before.generatedCertificateCount as int + first)
  {
  }

  lemma CountCompose(a: Int32, b: Int32, c: Int32, first: nat, k: nat)
    requires b == Wrap32(a as int + first)
    requires c == Wrap32(b as int + k)
    ensures c == Wrap32(a as int + (first + k))
  {
    Wrap32Absorbs(a as int + first, k);
  }

  /** At the end of an invocation the certificate count reads, as a Java int, its
      starting value plus the number of client certificates issued; node tasks,
      skipped and failed tasks leave it alone. */
  lemma {:induction false} CountTracksIssuedClients(tasks: seq<Task>, st: RunState, steps: seq<Step>)
    requires IsTrace(tasks, st, steps)
    ensures FinalState(st, steps).generatedCertificateCount
              == Wrap32(st.generatedCertificateCount as int + IssuedClients(tasks, steps))
    decreases |tasks|
  {
    if |tasks| != 0 {
      var s := steps[0];
      var rest := steps[1..];
      TraceTail(tasks, st, steps);
      CountTracksIssuedClients(tasks[1..], s.st, rest);
      var first := if tasks[0].ClientTask? && s.outcome.Issued? then 1 else 0;
      var k := IssuedClients(tasks[1..], rest);
      CountStep(tasks[0], st, s, first);
      CountCompose(st.generatedCertificateCount, s.st.generatedCertificateCount,
                   FinalState(s.st, rest).generatedCertificateCount, first, k);
    }
  }

  /** At the end of an invocation the auto-generated-password flag is set exactly
      when it was set at the start or some client task issued a certificate with an
      auto-generated password. */
  lemma {:induction false} FlagTracksAutoPasswords(tasks: seq<Task>, st: RunState, steps: seq<Step>)
    requires IsTrace(tasks, st, steps)
    ensures FinalState(st, steps).passwordAutoGenerated <==>
              || st.passwordAutoGenerated
              || exists i | 0 <= i < |steps| ::
                   tasks[i].ClientTask? && tasks[i].client.autoPassword && steps[i].outcome.Issued?
    decreases |tasks|
  {
    if |tasks| != 0 {
      var rest := steps[1..];
      TraceTail(tasks, st, steps);
      FlagTracksAutoPasswords(tasks[1..], steps[0].st, rest);
      forall i | 0 < i < |steps| ensures steps[i] == rest[i - 1] && tasks[i] == tasks[1..][i - 1] { }
      if exists i | 0 <= i < |rest| ::
           tasks[1..][i].ClientTask? && tasks[1..][i].client.autoPassword && rest[i].outcome.Issued? {
        var i :| 0 <= i < |rest| &&
           tasks[1..][i].ClientTask? && tasks[1..][i].client.autoPassword && rest[i].outcome.Issued?;
        assert steps[i + 1] == rest[i];
      }
    }
  }

  /** Starting from the statics as the class initialises them, the two getters report
      exactly the number of client certificates issued (as a Java int) and whether any
      of them had a generated password. */
  lemma GettersAfterProcess(tasks: seq<Task>, st: RunState, steps: seq<Step>)
    requires IsTrace(tasks, st, steps) && StaticsAtClassLoad(st)
    ensures FinalState(st, steps).generatedCertificateCount == Wrap32(IssuedClients(tasks, steps))
    ensures FinalState(st, steps).passwordAutoGenerated <==>
              exists i | 0 <= i < |steps| ::
                tasks[i].ClientTask? && tasks[i].client.autoPassword && steps[i].outcome.Issued?
  {
    CountTracksIssuedClients(tasks, st, steps);
    assert st.generatedCertificateCount as int + IssuedClients(tasks, steps) == IssuedClients(tasks, steps);
    FlagTracksAutoPasswords(tasks, st, steps);
  }

  /** Task `t` ended in step `s` with an issued client certificate. */
  predicate IssuedClient(t: Task, s: Step) {
    t.ClientTask? && s.outcome.Issued?
  }

  /** `after` registers the shared readme exactly when `before` does, with the same content. */
  predicate SameReadme(before: map<string, Output>, after: map<string, Output>) {
    && (ReadmePath in after <==> ReadmePath in before)
    && (ReadmePath in before ==> after[ReadmePath] == before[ReadmePath])
  }

  lemma ClientReadmeStep(ctx: Context, c: ClientRequest, st: RunState)
    ensures var s := IssueClient(ctx, c, st);
            if s.outcome.Issued? then ReadmePath in s.st.files && s.st.files[ReadmePath] == ClientReadme(c)
            else SameReadme(st.files, s.st.files)
  {
    var s := IssueClient(ctx, c, st);
    if s.outcome.Issued? {
      ClientOutputsReadme(st.files, ctx, c, s.outcome.cert);
    }
  }

  lemma NodeReadmeStep(ctx: Context, n: NodeRequest, st: RunState)
    ensures SameReadme(st.files, IssueNode(ctx, n, st).st.files)
  {
    ClientPathsDistinct(n.fileName);
  }

  /** What one step does to the shared readme: an issued client certificate leaves
      that client's readme, anything else leaves the readme as it was. */
  predicate ReadmeAdvances(t: Task, before: RunState, s: Step) {
    if IssuedClient(t, s) then ReadmePath in s.st.files && s.st.files[ReadmePath] == ClientReadme(t.client)
    else SameReadme(before.files, s.st.files)
  }

  /** `steps` is a run of `tasks` from `st` as far as the shared readme is concerned. */
  predicate ReadmeTrace(tasks: seq<Task>, st: RunState, steps: seq<Step>)
    decreases |steps|
  {
    && |steps| == |tasks|
    && (|steps| > 0 ==>
          && ReadmeAdvances(tasks[0], st, steps[0])
          && ReadmeTrace(tasks[1..], steps[0].st, steps[1..]))
  }

  lemma ReadmeStep(ctx: Context, t: Task, st: RunState)
    ensures ReadmeAdvances(t, st, Perform(ctx, t, st))
  {
    match t
    case ClientTask(c) => ClientReadmeStep(ctx, c, st);
    case NodeTask(n) => NodeReadmeStep(ctx, n, st);
  }

  /** Running the tasks produces a readme trace. */
  lemma {:induction false} RunTasksReadmeTrace(ctx: Context, tasks: seq<Task>, st: RunState)
    ensures ReadmeTrace(tasks, st, RunTasks(ctx, tasks, st))
    decreases |tasks|
  {
    if |tasks| != 0 {
      var s := Perform(ctx, tasks[0], st);
      ReadmeStep(ctx, tasks[0], st);
      RunTasksReadmeTrace(ctx, tasks[1..], s.st);
      assert RunTasks(ctx, tasks, st) == [s] + RunTasks(ctx, tasks[1..], s.st);
    }
  }

  lemma ReadmeTraceTail(tasks: seq<Task>, st: RunState, steps: seq<Step>)
    requires ReadmeTrace(tasks, st, steps) && |steps| > 0
    ensures ReadmeAdvances(tasks[0], st, steps[0])
    ensures ReadmeTrace(tasks[1..], steps[0].st, steps[1..])
    ensures FinalState(st, steps) == FinalState(steps[0].st, steps[1..])
  {
  }

  /** Every prefix of a readme trace is a readme trace of the matching prefix of the tasks. */
  lemma {:induction false} ReadmeTracePrefix(tasks: seq<Task>, st: RunState, steps: seq<Step>, k: nat)
    requires ReadmeTrace(tasks, st, steps) && k <= |steps|
    ensures ReadmeTrace(tasks[..k], st, steps[..k])
    decreases k
  {
    if k > 0 {
      ReadmeTraceTail(tasks, st, steps);
      ReadmeTracePrefix(tasks[1..], steps[0].st, steps[1..], k - 1);
      assert tasks[..k][1..] == tasks[1..][..k - 1];
      assert steps[..k][1..] == steps[1..][..k - 1];
    }
  }

  /** The index of the last task that issued a client certificate, if any. */
  function LastIssuedClient(tasks: seq<Task>, steps: seq<Step>): (r: Option<nat>)
    requires |tasks| == |steps|
    ensures r.Some? ==> && r.value < |steps| && IssuedClient(tasks[r.value], steps[r.value])
                        && forall j | r.value < j < |steps| :: !IssuedClient(tasks[j], steps[j])
    ensures r.None? ==> forall j | 0 <= j < |steps| :: !IssuedClient(tasks[j], steps[j])
    decreases |steps|
  {
    if |steps| == 0 then None
    else
      var later := LastIssuedClient(tasks[1..], steps[1..]);
      assert forall j | 0 < j < |steps| :: tasks[j] == tasks[1..][j - 1] && steps[j] == steps[1..][j - 1];
      if later.Some? then Some(later.value + 1)
      else if IssuedClient(tasks[0], steps[0]) then Some(0)
      else None
  }

  /** At the end of a run the shared readme is the readme of the last client that was
      issued a certificate, whatever earlier clients registered; without any issued
      client it is what it was at the start. */
  lemma {:induction false} ReadmeAfterRun(tasks: seq<Task>, st: RunState, steps: seq<Step>)
    requires ReadmeTrace(tasks, st, steps)
    ensures var last := LastIssuedClient(tasks, steps);
            var fin := FinalState(st, steps);
            && (last.None? ==> SameReadme(st.files, fin.files))
            && (last.Some? ==> ReadmePath in fin.files && fin.files[ReadmePath] == ClientReadme(tasks[last.value].client))
    decreases |tasks|
  {
    if |tasks| != 0 {
      var mid := steps[0].st;
      ReadmeTraceTail(tasks, st, steps);
      ReadmeAfterRun(tasks[1..], mid, steps[1..]);
      var later := LastIssuedClient(tasks[1..], steps[1..]);
      if later.Some? {
        assert tasks[later.value + 1] == tasks[1..][later.value];
      } else if !IssuedClient(tasks[0], steps[0]) {
        SameReadmeTrans(st.files, mid.files, FinalState(st, steps).files);
      }
    }
  }

  lemma SameReadmeTrans(a: map<string, Output>, b: map<string, Output>, c: map<string, Output>)
    requires SameReadme(a, b) && SameReadme(b, c)
    ensures SameReadme(a, c)
  {
  }

  /** A client with a generated password followed by one without: both are issued, the
      flag is raised, and the readme no longer holds the first client's notice. */
  lemma LaterClientDropsNotice(ctx: Context, a: ClientRequest, b: ClientRequest, st: RunState)
    requires a.overwriteConfirmed && b.overwriteConfirmed
    requires a.autoPassword && !b.autoPassword
    requires ctx.provider.buildsSigner(ctx.signatureAlgorithm, ctx.signingPrivateKey)
    ensures var ra := IssueClient(ctx, a, st);
            var rb := IssueClient(ctx, b, ra.st);
            && ra.outcome.Issued? && rb.outcome.Issued?
            && rb.st.passwordAutoGenerated
            && ReadmePath in rb.st.files && rb.st.files[ReadmePath] == Output(None, [ReadmeText])
            && PasswordInfo(KeyPath(a.fileName), a.password) !in rb.st.files[ReadmePath].entries
  {
    var ra := IssueClient(ctx, a, st);
    ClientReadmeStep(ctx, b, ra.st);
  }
}
