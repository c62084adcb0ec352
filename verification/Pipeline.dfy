/**
 What happens to a built issue: escalate a blocking gate, file the nits of a passing one, open exactly one
 pull request, record the outcome. Each method is proved to move GitHub as the lane's task steps do, so the
 run-level promises about the lane are promises about this code; the composition with the container build is
 `BuildIssue`, the stranded recovery is `RecoverStranded`.
 */
module Pipeline {
  import AdhocBuild
  import ChainDepth
  import ContainerBuild
  import opened GitHub
  import opened GitHubApi
  import opened LaneTask
  import R = RunLedger
  import opened Wrappers

  class Notifier {
    const repo: Repository
    const mayFail: bool

    constructor (repo: Repository, mayFail: bool)
      ensures this.repo == repo && this.mayFail == mayFail
    {
      this.repo, this.mayFail := repo, mayFail;
    }

    /** Push (its failure swallowed), comment, label: the durable two may raise, the label comes last. */
    method Notify(issue: nat) returns (r: Result<()>)
      modifies repo`hub, repo`comments, repo`raised
      ensures r.Raised? ==> mayFail
      ensures repo.raised == old(repo.raised) + if r.Raised? then 1 else 0
      ensures repo.hub == if r.Ok? then SetHitl(old(repo.hub), issue, true) else old(repo.hub)
      ensures r.Ok? ==> repo.comments == old(repo.comments) + [issue]
    {
      var _ := Chance();
      var _ :- repo.Comment(issue, mayFail);
      r := repo.AddHitlLabel(issue, mayFail);
    }
  }

  datatype AdhocIssue = AdhocIssue(number: nat, chainDepth: nat)

  /** `AdhocIssue.from_fetched_issue`. */
  function FromFetched(cfg: Config, number: nat, body: string): AdhocIssue {
    AdhocIssue(number, cfg.depthOf(body))
  }

  /** Whether a pull request is open after the PR step, or its base was missing. */
  datatype PrOutcome = Opened | StagingMissing

  /** The issues of `hub'` are those of `hub` and `count` new backlog nits of `parent`, each at `depth`. */
  ghost predicate NitsFiled(hub: Hub, hub': Hub, parent: nat, depth: nat, count: nat) {
    && hub'.branches == hub.branches && hub'.prs == hub.prs
    && |hub'.issues.Keys| == |hub.issues.Keys| + count
    && (forall n | n in hub.issues :: n in hub'.issues && hub'.issues[n] == hub.issues[n])
    && (forall n | n in hub'.issues && n !in hub.issues :: IsNit(hub'.issues[n], parent, depth))
  }

  predicate IsNit(issue: Issue, parent: nat, depth: nat) {
    ChainDepth.Parse(issue.body) == depth && issue.parent == Some(parent) && issue.backlog && !issue.trigger
      && issue.open && !issue.hitl
  }

  /** A filed nit reads back as the depth it was stamped with, whatever the finding's text quotes. */
  lemma NitReadsBack(parent: nat, depth: nat, body: string, urgent: bool)
    ensures IsNit(Nit(parent, depth, body, urgent), parent, depth)
  {
    ChainDepth.ParseFiledBody(body, depth);
  }

  lemma NitFirst(hub: Hub, hub': Hub, parent: nat, depth: nat, count: nat, number: nat, nit: Issue)
    requires number !in hub.issues && IsNit(nit, parent, depth)
      && NitsFiled(AddIssue(hub, number, nit), hub', parent, depth, count)
    ensures NitsFiled(hub, hub', parent, depth, count + 1)
  {
    var mid := AddIssue(hub, number, nit);
    assert mid.issues.Keys == hub.issues.Keys + {number};
    assert mid.issues[number] == nit;
  }

  /** A stretch of filing events files that many nits, one hop deeper, and changes nothing else. */
  lemma {:induction false} FilingFilesNits(cfg: Config, t: Task, hub: Hub, es: seq<TaskEvent>, t': Task, hub': Hub)
    requires t.phase.Filing? && RunsAlone(cfg, t, hub, es, Continues(t'), hub') && forall e | e in es :: e.FileNit?
    ensures NitsFiled(hub, hub', t.issue, t.depth + 1, |es|)
    decreases |es|
  {
    if es != [] {
      var e := es[0];
      assert e in es;
      FilingFilesNits(cfg, t.(phase := Filing(t.phase.left - 1)), Effect(t, hub, e), es[1..], t', hub');
      NitReadsBack(t.issue, t.depth + 1, e.body, e.urgent);
      NitFirst(hub, hub', t.issue, t.depth + 1, |es| - 1, e.number, Nit(t.issue, t.depth + 1, e.body, e.urgent));
    }
  }

  /** The bodies of the nits a stretch of events files, in order. */
  function FiledBodies(es: seq<TaskEvent>): seq<string> {
    if es == [] then []
    else FiledBodies(es[..|es| - 1]) + if es[|es| - 1].FileNit? then [es[|es| - 1].body] else []
  }

  lemma FiledThen(es: seq<TaskEvent>, fs: seq<TaskEvent>)
    ensures FiledBodies(es + fs) == FiledBodies(es) + FiledBodies(fs)
    decreases |fs|
  {
    if fs == [] {
      assert es + fs == es;
    } else {
      assert (es + fs)[..|es + fs| - 1] == es + fs[..|fs| - 1];
      FiledThen(es, fs[..|fs| - 1]);
    }
  }

  /** Past its filing a task files nothing more. */
  lemma {:induction false} FilesNoMore(cfg: Config, t: Task, hub: Hub, es: seq<TaskEvent>, p: Progress, hub': Hub)
    requires RunsAlone(cfg, t, hub, es, p, hub') && PastFiling(t.phase)
    ensures FiledBodies(es) == []
    decreases |es|
  {
    if es != [] {
      assert es == [es[0]] + es[1..] && [es[0]][..0] == [];
      FiledThen([es[0]], es[1..]);
      match Advance(cfg, t, es[0])
      case Continues(t') => FilesNoMore(cfg, t', Effect(t, hub, es[0]), es[1..], p, hub');
      case _ =>
    }
  }

  predicate PastFiling(phase: Phase) {
    phase.Checking? || phase.Opening? || phase.Recording? || phase.Escalated?
  }

  function Bodies(fs: seq<ContainerBuild.Finding>): seq<string> {
    if fs == [] then [] else Bodies(fs[..|fs| - 1]) + [fs[|fs| - 1].body]
  }

  class Pipeline {
    const repo: Repository
    const cfg: Config
    const base: string
    const repoName: string
    const notifier: Notifier
    const runLedger: R.RunLedgerStore
    var mapped: set<nat>

    ghost predicate Valid() {
      notifier.repo == repo && notifier.mayFail == cfg.sinksMayFail
    }

    constructor (repo: Repository, cfg: Config, base: string, repoName: string, runLedger: R.RunLedgerStore)
      ensures Valid() && this.repo == repo && this.cfg == cfg && this.base == base
      ensures this.repoName == repoName && this.runLedger == runLedger
    {
      this.repo, this.cfg, this.base, this.repoName, this.runLedger := repo, cfg, base, repoName, runLedger;
      var n := new Notifier(repo, cfg.sinksMayFail);
      notifier := n;
      mapped := {};
    }

    /** The exceptions of this pipeline's outside calls so far. */
    ghost function Faults(): nat
      reads repo, runLedger
    {
      repo.raised + runLedger.raised
    }

    ghost function Ledger(): R.Table
      reads runLedger
    {
      runLedger.Contents()
    }

    function TaskAt(issue: AdhocIssue, phase: Phase): Task {
      Task(issue.number, issue.chainDepth, base, phase)
    }

    /** The task got from `from` to `phase`. */
    ghost predicate Gets(issue: AdhocIssue, from: Phase, hub: Hub, es: seq<TaskEvent>, phase: Phase, hub': Hub) {
      RunsAlone(cfg, TaskAt(issue, from), hub, es, Continues(TaskAt(issue, phase)), hub')
    }

    /** The task's last step: it is over, or an exception left it. */
    ghost predicate Ends(issue: AdhocIssue, from: Phase, hub: Hub, es: seq<TaskEvent>, raised: bool, hub': Hub) {
      RunsAlone(cfg, TaskAt(issue, from), hub, es, if raised then Failed else Finished, hub')
    }

    ghost method Then(issue: AdhocIssue, from: Phase, hub: Hub, es: seq<TaskEvent>, phase: Phase, midHub: Hub,
        e: TaskEvent)
      returns (es': seq<TaskEvent>)
      requires Gets(issue, from, hub, es, phase, midHub) && Enabled(cfg, TaskAt(issue, phase), midHub, e)
      ensures RunsAlone(cfg, TaskAt(issue, from), hub, es', Advance(cfg, TaskAt(issue, phase), e),
                Effect(TaskAt(issue, phase), midHub, e))
      ensures es' == es + [e] && FiledBodies(es') == FiledBodies(es) + if e.FileNit? then [e.body] else []
    {
      RunsAloneSnoc(cfg, TaskAt(issue, from), hub, es, TaskAt(issue, phase), midHub, e);
      es' := es + [e];
      assert es'[..|es|] == es;
    }

    /** One more write to the run ledger, for this issue in this state. */
    ghost predicate Logged(before: R.Table, after: R.Table, issue: AdhocIssue, state: R.RunState) {
      exists row: R.Row ::
        row.state == state && after == R.AfterWrite(before, R.Write(R.Key(repoName, issue.number), row))
    }

    /** What the run ledger says of a routed build, and what GitHub looks like then. */
    ghost predicate Routed(before: R.Table, after: R.Table, issue: AdhocIssue, build: AdhocBuild.BuildResult, hub: Hub,
        hub': Hub) {
      if !build.passed then Logged(before, after, issue, R.Failed) && hub'.prs == hub.prs
      else if build.gate.Some? && build.gate.value.blocking != [] then
        Logged(before, after, issue, R.Escalated) && hub'.prs == hub.prs
      else if base in repo.targets then
        Logged(before, after, issue, R.PrOpened) && HasOpenPr(hub', issue.number, base)
      else after == before
    }

    method RecordRow(issue: AdhocIssue, state: R.RunState) returns (r: Result<()>)
      modifies runLedger
      ensures Faults() == old(Faults()) + if r.Raised? then 1 else 0
      ensures r.Ok? ==> Logged(old(Ledger()), Ledger(), issue, state)
      ensures r.Raised? ==> Ledger() == old(Ledger())
    {
      var now: int, url: Option<string> := *, *;
      r := runLedger.Record(repoName, issue.number, state, url, now);
      assert R.Row(state, url, now).state == state;
    }

    /** GitHub after a completed PR step. */
    ghost predicate PrStep(issue: AdhocIssue, hub: Hub, hub': Hub) {
      hub' == if base !in repo.targets then SetHitl(hub, issue.number, true)
              else if HasOpenPr(hub, issue.number, base) then hub
              else OpenPr(hub, issue.number, base)
    }

    /** The issue branch was brought up to date if a pull request had to be opened from it. */
    ghost predicate Synced(issue: AdhocIssue, hub: Hub, before: seq<nat>, after: seq<nat>) {
      after == if HasOpenPr(hub, issue.number, base) then before else before + [issue.number]
    }

    /**
     Idempotent: with the target branch there, an open pull request is returned as it is, otherwise the head
     is synced and exactly one is opened; without it the issue is labelled hitl and nothing is opened.
     */
    method OpenStagingPr(issue: AdhocIssue) returns (r: Result<PrOutcome>, ghost es: seq<TaskEvent>, ghost phase: Phase)
      requires Valid()
      modifies repo
      ensures Faults() == old(Faults()) + if r.Raised? then 1 else 0
      ensures Gets(issue, Checking, old(repo.hub), es, phase, repo.hub)
      ensures r.Ok? ==> PrStep(issue, old(repo.hub), repo.hub) && (r.value == Opened <==> base in repo.targets)
      ensures r.Ok? ==> phase == if r.value == Opened then Recording else Escalated
      ensures r == Ok(StagingMissing) ==>
        repo.comments == old(repo.comments) + [issue.number] && repo.synced == old(repo.synced)
      ensures r == Ok(Opened) ==>
        repo.comments == old(repo.comments) && Synced(issue, old(repo.hub), old(repo.synced), repo.synced)
      ensures r.Raised? ==> phase in {Checking, Opening} && repo.hub == old(repo.hub)
    {
      es, phase := [], Checking;
      ghost var hub := repo.hub;
      var there :- repo.BranchExists(base);
      if !there {
        var _ :- notifier.Notify(issue.number);
        es := Then(issue, Checking, hub, es, Checking, hub, BaseMissing);
        phase := Escalated;
        return Ok(StagingMissing), es, phase;
      }
      var existing :- repo.ExistingOpenPr(issue.number, base);
      if existing {
        es := Then(issue, Checking, hub, es, Checking, hub, SawPr);
        phase := Recording;
        return Ok(Opened), es, phase;
      }
      es := Then(issue, Checking, hub, es, Checking, hub, SawNoPr);
      phase := Opening;
      var created;
      created, es := OpenNew(issue, hub, es);
      if created.Raised? { return Raised, es, phase; }
      phase := Recording;
      r := Ok(Opened);
    }

    /** No pull request was seen: bring the branch up to date, then open one. */
    method OpenNew(issue: AdhocIssue, ghost hub: Hub, ghost seen: seq<TaskEvent>)
        returns (r: Result<()>, ghost es: seq<TaskEvent>)
      requires Gets(issue, Checking, hub, seen, Opening, repo.hub)
      modifies repo`hub, repo`synced, repo`raised
      ensures repo.raised == old(repo.raised) + if r.Raised? then 1 else 0
      ensures Gets(issue, Checking, hub, es, if r.Ok? then Recording else Opening, repo.hub)
      ensures repo.hub == if r.Ok? then OpenPr(old(repo.hub), issue.number, base) else old(repo.hub)
      ensures r.Ok? ==> repo.synced == old(repo.synced) + [issue.number]
    {
      es := seen;
      ghost var before := repo.hub;
      var _ :- repo.BringUpToDate(issue.number, base);
      var _ :- repo.CreatePr(issue.number, base);
      es := Then(issue, Checking, hub, es, Opening, before, Open);
      r := Ok(());
    }

    /** The mapping, then the run-ledger row. */
    method RecordOpened(issue: AdhocIssue) returns (r: Result<()>)
      modifies repo`raised, runLedger, `mapped
      ensures Faults() == old(Faults()) + if r.Raised? then 1 else 0
      ensures r.Ok? ==> mapped == old(mapped) + {issue.number} && Logged(old(Ledger()), Ledger(), issue, R.PrOpened)
      ensures r.Raised? ==> mapped in {old(mapped), old(mapped) + {issue.number}} && Ledger() == old(Ledger())
    {
      var unsaved := repo.Fails();
      if unsaved { return Raised; }
      mapped := mapped + {issue.number};
      r := RecordRow(issue, R.PrOpened);
    }

    /** `_open_pr`: the PR step and its two records; a failed record leaves the pull request open. */
    method OpenAndRecord(issue: AdhocIssue) returns (r: Result<PrOutcome>, ghost es: seq<TaskEvent>)
      requires Valid()
      modifies repo, runLedger, `mapped
      ensures Faults() == old(Faults()) + if r.Raised? then 1 else 0
      ensures Ends(issue, Checking, old(repo.hub), es, r.Raised?, repo.hub)
      ensures r.Ok? ==> PrStep(issue, old(repo.hub), repo.hub) && (r.value == Opened <==> base in repo.targets)
      ensures r == Ok(Opened) ==>
        mapped == old(mapped) + {issue.number} && Logged(old(Ledger()), Ledger(), issue, R.PrOpened)
      ensures r != Ok(Opened) ==> mapped == old(mapped) || (r.Raised? && mapped == old(mapped) + {issue.number})
      ensures r == Ok(StagingMissing) ==>
        repo.comments == old(repo.comments) + [issue.number] && repo.synced == old(repo.synced)
      ensures r == Ok(Opened) ==>
        repo.comments == old(repo.comments) && Synced(issue, old(repo.hub), old(repo.synced), repo.synced)
      ensures r != Ok(Opened) ==> Ledger() == old(Ledger())
    {
      ghost var hub := repo.hub;
      ghost var phase;
      r, es, phase := OpenStagingPr(issue);
      if r.Raised? {
        es := Then(issue, Checking, hub, es, phase, repo.hub, Raise);
        return;
      }
      if r.value == Opened {
        var recorded := RecordOpened(issue);
        if recorded.Raised? {
          es := Then(issue, Checking, hub, es, phase, repo.hub, Raise);
          return Raised, es;
        }
      }
      es := Then(issue, Checking, hub, es, phase, repo.hub, Record);
    }

    /** Label hitl, then record: once the sinks succeed, the issue wears hitl however the record goes. */
    method EscalateBlocking(issue: AdhocIssue) returns (r: Result<()>, ghost es: seq<TaskEvent>)
      requires Valid()
      modifies repo`hub, repo`comments, repo`raised, runLedger
      ensures Faults() == old(Faults()) + if r.Raised? then 1 else 0
      ensures Ends(issue, Blocked, old(repo.hub), es, r.Raised?, repo.hub)
      ensures r.Ok? || !cfg.sinksMayFail ==> repo.hub == SetHitl(old(repo.hub), issue.number, true)
      ensures r.Ok? ==>
        Logged(old(Ledger()), Ledger(), issue, R.Escalated)
          && repo.comments == old(repo.comments) + [issue.number]
      ensures repo.hub.prs == old(repo.hub.prs)
      ensures r.Raised? ==> Ledger() == old(Ledger())
    {
      ghost var hub := repo.hub;
      r := notifier.Notify(issue.number);
      es := EscalationEnds(issue, hub, r.Ok?, true);
      if r.Raised? { return; }
      r := RecordRow(issue, R.Escalated);
      es := EscalationEnds(issue, hub, true, r.Raised?);
    }

    /** The task's events: it raises before the label, or applies the label and then ends or raises. */
    lemma EscalationEnds(issue: AdhocIssue, hub: Hub, labelled: bool, raised: bool) returns (es: seq<TaskEvent>)
      requires labelled || (raised && cfg.sinksMayFail)
      ensures Ends(issue, Blocked, hub, es, raised, if labelled then SetHitl(hub, issue.number, true) else hub)
    {
      es := if labelled then [LabelHitl, if raised then Raise else Record] else [Raise];
      if labelled { assert es[1..] == [if raised then Raise else Record] && es[1..][1..] == []; }
    }

    /** The first `i` findings of `backlog` are filed, in order and with nothing else done. */
    ghost predicate FiledFirst(issue: AdhocIssue, backlog: seq<ContainerBuild.Finding>, i: nat, hub: Hub,
        es: seq<TaskEvent>)
      reads repo
    {
      && i == |es| <= |backlog|
      && Gets(issue, Filing(|backlog|), hub, es, Filing(|backlog| - i), repo.hub)
      && (forall e | e in es :: e.FileNit?)
      && FiledBodies(es) == Bodies(backlog[..i])
    }

    /** Create one nit: the next event of the task. */
    method FileNext(issue: AdhocIssue, backlog: seq<ContainerBuild.Finding>, i: nat, ghost hub: Hub,
        ghost done: seq<TaskEvent>)
      returns (r: Result<()>, ghost es: seq<TaskEvent>)
      requires i < |backlog| && FiledFirst(issue, backlog, i, hub, done)
      modifies repo`hub, repo`raised
      ensures repo.raised == old(repo.raised) + if r.Raised? then 1 else 0
      ensures FiledFirst(issue, backlog, if r.Ok? then i + 1 else i, hub, es)
    {
      es := done;
      var urgent := Chance();          // whether its priority label is in this repo's priority tiers
      ghost var mid := repo.hub;
      ghost var number;
      r, number := repo.CreateIssue(Nit(issue.number, issue.chainDepth + 1, backlog[i].body, urgent));
      if r.Ok? {
        es := Then(issue, Filing(|backlog|), hub, done, Filing(|backlog| - i), mid,
          FileNit(number, backlog[i].body, urgent));
        assert backlog[..i + 1][..i] == backlog[..i];
      }
    }

    /** One issue per finding, in order. */
    method FileEach(issue: AdhocIssue, backlog: seq<ContainerBuild.Finding>)
      returns (r: Result<()>, ghost es: seq<TaskEvent>, ghost filed: nat)
      modifies repo`hub, repo`raised
      ensures repo.raised == old(repo.raised) + if r.Raised? then 1 else 0
      ensures FiledFirst(issue, backlog, filed, old(repo.hub), es) && (r.Ok? ==> filed == |backlog|)
    {
      ghost var hub := repo.hub;
      es, filed := [], 0;
      for i := 0 to |backlog|
        invariant filed == i && FiledFirst(issue, backlog, i, hub, es) && repo.raised == old(repo.raised)
      {
        r, es := FileNext(issue, backlog, i, hub, es);
        if r.Raised? { return; }
        filed := i + 1;
      }
      r := Ok(());
    }

    /** One issue per finding, or none once the next hop would reach the retry cap. */
    method FileBacklog(issue: AdhocIssue, backlog: seq<ContainerBuild.Finding>)
      returns (r: Result<()>, ghost es: seq<TaskEvent>, ghost phase: Phase)
      requires Valid()
      modifies repo`hub, repo`raised
      ensures repo.raised == old(repo.raised) + if r.Raised? then 1 else 0
      ensures Gets(issue, Filing(NitsToFile(cfg, issue.chainDepth, |backlog|)), old(repo.hub), es, phase, repo.hub)
      ensures r.Raised? ==> phase.Filing?
      ensures r.Ok? ==> phase == Checking && NitsFiled(old(repo.hub), repo.hub, issue.number, issue.chainDepth + 1,
                                               NitsToFile(cfg, issue.chainDepth, |backlog|))
      ensures r.Ok? ==> FiledBodies(es) == if issue.chainDepth + 1 < cfg.retryCap then Bodies(backlog) else []
    {
      ghost var hub := repo.hub;
      ghost var from := Filing(NitsToFile(cfg, issue.chainDepth, |backlog|));
      es, phase := [], from;
      var nextDepth := issue.chainDepth + 1;
      if |backlog| > 0 && nextDepth < cfg.retryCap {
        ghost var filed;
        r, es, filed := FileEach(issue, backlog);
        phase := Filing(|backlog| - filed);
        if r.Raised? { return; }
        assert backlog[..filed] == backlog;
        FilingFilesNits(cfg, TaskAt(issue, from), hub, es, TaskAt(issue, phase), repo.hub);
      }
      es := Then(issue, from, hub, es, phase, repo.hub, FiledAll);
      phase := Checking;
      r := Ok(());
    }

    /** The nits of `found` findings are filed, none at the retry cap; then comes the PR step. */
    ghost predicate FilesThenOpens(issue: AdhocIssue, found: nat, hub: Hub, hub': Hub) {
      exists mid :: PrStep(issue, mid, hub')
        && NitsFiled(hub, mid, issue.number, issue.chainDepth + 1, NitsToFile(cfg, issue.chainDepth, found))
    }

    /** A red build goes on record; GitHub is left alone. */
    method RecordRed(issue: AdhocIssue) returns (r: Result<()>, ghost es: seq<TaskEvent>)
      modifies runLedger
      ensures Faults() == old(Faults()) + if r.Raised? then 1 else 0
      ensures Ends(issue, Building, repo.hub, es, r.Raised?, repo.hub)
      ensures r.Ok? ==> Logged(old(Ledger()), Ledger(), issue, R.Failed)
      ensures r.Raised? ==> Ledger() == old(Ledger())
    {
      r := RecordRow(issue, R.Failed);
      es := Then(issue, Building, repo.hub, [], Building, repo.hub, if r.Raised? then Raise else Red);
    }

    /** A green build whose gate passed: its nits, then the PR step and its records. */
    method FileAndOpen(issue: AdhocIssue, backlog: seq<ContainerBuild.Finding>)
        returns (r: Result<PrOutcome>, ghost es: seq<TaskEvent>)
      requires Valid()
      modifies repo, runLedger, `mapped
      ensures Faults() == old(Faults()) + if r.Raised? then 1 else 0
      ensures Ends(issue, Filing(NitsToFile(cfg, issue.chainDepth, |backlog|)), old(repo.hub), es, r.Raised?, repo.hub)
      ensures r.Ok? ==>
        && FilesThenOpens(issue, |backlog|, old(repo.hub), repo.hub) && (r.value == Opened <==> base in repo.targets)
        && FiledBodies(es) == if issue.chainDepth + 1 < cfg.retryCap then Bodies(backlog) else []
      ensures r == Ok(Opened) ==>
        && issue.number in mapped && HasOpenPr(repo.hub, issue.number, base)
        && Logged(old(Ledger()), Ledger(), issue, R.PrOpened)
      ensures r != Ok(Opened) ==> Ledger() == old(Ledger())
    {
      ghost var hub, from := repo.hub, Filing(NitsToFile(cfg, issue.chainDepth, |backlog|));
      var filed;
      ghost var first, phase;
      filed, first, phase := FileBacklog(issue, backlog);
      if filed.Raised? {
        es := Then(issue, from, hub, first, phase, repo.hub, Raise);
        return Raised, es;
      }
      ghost var mid := repo.hub;
      r, es := OpenAndRecord(issue);
      RunsAloneConcat(cfg, TaskAt(issue, from), hub, first, TaskAt(issue, Checking), mid, es,
        if r.Raised? then Failed else Finished, repo.hub);
      FilesNoMore(cfg, TaskAt(issue, Checking), mid, es, if r.Raised? then Failed else Finished, repo.hub);
      FiledThen(first, es);
      es := first + es;
      assert r.Ok? ==> PrStep(issue, mid, repo.hub);
    }

    /** Route a build: red is recorded, a block escalates, anything else files its nits and opens the PR. */
    method ProcessAdhocPr(issue: AdhocIssue, build: AdhocBuild.BuildResult)
        returns (r: Result<Option<PrOutcome>>, ghost es: seq<TaskEvent>)
      requires Valid()
      modifies repo, runLedger, `mapped
      ensures Faults() == old(Faults()) + if r.Raised? then 1 else 0
      ensures Ends(issue, AdhocBuild.PhaseAfter(cfg, issue.chainDepth, build), old(repo.hub), es, r.Raised?, repo.hub)
      ensures !build.passed ==>
        && repo.hub == old(repo.hub) && mapped == old(mapped)
        && repo.comments == old(repo.comments) && repo.synced == old(repo.synced)
        && (r.Ok? ==> r.value == None && Logged(old(Ledger()), Ledger(), issue, R.Failed))
      ensures build.passed && build.gate.Some? && build.gate.value.blocking != [] ==>
        && repo.hub.prs == old(repo.hub.prs) && repo.synced == old(repo.synced) && mapped == old(mapped)
        && (r.Ok? ==> repo.comments == old(repo.comments) + [issue.number])
        && (r.Ok? ==> r.value == None && Logged(old(Ledger()), Ledger(), issue, R.Escalated))
        && (r.Ok? || !cfg.sinksMayFail ==> repo.hub == SetHitl(old(repo.hub), issue.number, true))
      ensures build.passed && (build.gate.Some? ==> build.gate.value.blocking == []) && r.Ok? ==>
        && r.value == Some(if base in repo.targets then Opened else StagingMissing)
        && (r.value == Some(Opened) ==>
              && issue.number in mapped && HasOpenPr(repo.hub, issue.number, base)
              && Logged(old(Ledger()), Ledger(), issue, R.PrOpened))
      ensures build.passed && build.gate.None? && r.Ok? ==> PrStep(issue, old(repo.hub), repo.hub)
      ensures build.passed && build.gate.Some? && build.gate.value.blocking == [] && r.Ok? ==>
        && FilesThenOpens(issue, |build.gate.value.backlog|, old(repo.hub), repo.hub)
        && FiledBodies(es) == if issue.chainDepth + 1 < cfg.retryCap then Bodies(build.gate.value.backlog) else []
      ensures r.Raised? || r == Ok(Some(StagingMissing)) ==> Ledger() == old(Ledger())
    {
      if !build.passed {
        var recorded;
        recorded, es := RecordRed(issue);
        return if recorded.Raised? then Raised else Ok(None), es;
      }
      if build.gate.Some? && build.gate.value.blocking != [] {
        var escalated;
        escalated, es := EscalateBlocking(issue);
        return if escalated.Raised? then Raised else Ok(None), es;
      }
      var pr;
      if build.gate.Some? {
        pr, es := FileAndOpen(issue, build.gate.value.backlog);
      } else {
        pr, es := OpenAndRecord(issue);
      }
      r := if pr.Raised? then Raised else Ok(Some(pr.value));
    }

    /** `ProcessAdhocPr`, and what it leaves on record. */
    method Route(issue: AdhocIssue, build: AdhocBuild.BuildResult)
        returns (r: Result<Option<PrOutcome>>, ghost es: seq<TaskEvent>)
      requires Valid()
      modifies repo, runLedger, `mapped
      ensures Faults() == old(Faults()) + if r.Raised? then 1 else 0
      ensures Ends(issue, AdhocBuild.PhaseAfter(cfg, issue.chainDepth, build), old(repo.hub), es, r.Raised?, repo.hub)
      ensures r.Ok? ==> Routed(old(Ledger()), Ledger(), issue, build, old(repo.hub), repo.hub)
      ensures r.Raised? ==> Ledger() == old(Ledger())
    {
      r, es := ProcessAdhocPr(issue, build);
    }

    /**
     The bound `build` of the drain: container build, then the pipeline, as one run of the lane task. `built` is what
     the container build returned and `log` what it did; a normal return routed exactly that.
     */
    method BuildIssue(issue: AdhocIssue)
      returns (r: Result<()>, ghost es: seq<TaskEvent>, ghost built: Result<AdhocBuild.BuildResult>,
          ghost log: seq<ContainerBuild.Event>)
      requires Valid()
      modifies repo, runLedger, `mapped
      ensures Faults() >= old(Faults()) + if r.Raised? then 1 else 0
      ensures Ends(issue, Building, old(repo.hub), es, r.Raised?, repo.hub)
      ensures ContainerBuild.Disciplined(log) && AdhocBuild.Concluded(built, log) && (built.Raised? ==> r.Raised?)
      ensures r.Ok? ==> Routed(old(Ledger()), Ledger(), issue, built.value, old(repo.hub), repo.hub)
      ensures r.Raised? ==> Ledger() == old(Ledger())
    {
      ghost var hub := repo.hub;
      var job := new AdhocBuild.IssueBuild(repo, cfg, issue.number, issue.chainDepth, base);
      var build;
      build, es := job.Build();
      built, log := build, job.log;
      if build.Raised? { return Raised, es, built, log; }
      ghost var mid := repo.hub;
      assert mid.prs == hub.prs;
      ghost var before := es;
      var routed;
      routed, es := Route(issue, build.value);
      RunsAloneConcat(cfg, TaskAt(issue, Building), hub, before,
        TaskAt(issue, AdhocBuild.PhaseAfter(cfg, issue.chainDepth, build.value)), mid,
        es, if routed.Raised? then Failed else Finished, repo.hub);
      es := before + es;
      r := if routed.Raised? then Raised else Ok(());
    }

    /** The bound `open_pr` of the drain: the PR step alone, for a branch taken to be green. */
    method RecoverStranded(issue: AdhocIssue) returns (r: Result<()>, ghost es: seq<TaskEvent>)
      requires Valid()
      modifies repo, runLedger, `mapped
      ensures Faults() == old(Faults()) + if r.Raised? then 1 else 0
      ensures Ends(issue, Checking, old(repo.hub), es, r.Raised?, repo.hub)
      ensures r.Ok? ==> PrStep(issue, old(repo.hub), repo.hub)
      ensures r.Ok? && base in repo.targets ==> Logged(old(Ledger()), Ledger(), issue, R.PrOpened)
      ensures r.Raised? || base !in repo.targets ==> Ledger() == old(Ledger())
    {
      var routed;
      routed, es := ProcessAdhocPr(issue, AdhocBuild.BuildResult(true, None));
      r := if routed.Raised? then Raised else Ok(());
    }
  }

  /** Two runs alone, end to end. */
  lemma {:induction false} RunsAloneConcat(
      cfg: Config, t: Task, hub: Hub, es: seq<TaskEvent>, mid: Task, midHub: Hub, fs: seq<TaskEvent>, p: Progress,
        hub': Hub)
    requires RunsAlone(cfg, t, hub, es, Continues(mid), midHub) && RunsAlone(cfg, mid, midHub, fs, p, hub')
    ensures RunsAlone(cfg, t, hub, es + fs, p, hub')
    decreases |es|
  {
    if es == [] {
      assert es + fs == fs;
    } else {
      assert (es + fs)[0] == es[0] && (es + fs)[1..] == es[1..] + fs;
      match Advance(cfg, t, es[0])
      case Continues(t') => RunsAloneConcat(cfg, t', Effect(t, hub, es[0]), es[1..], mid, midHub, fs, p, hub');
      case _ =>
    }
  }
}
