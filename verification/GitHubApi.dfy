/**
 GitHub as the adapters see it: one mutable repository and the calls that read or change it. A call either
 takes effect whole or raises and changes nothing; a sink call raises only where `mayFail` says so.
 */
module GitHubApi {
  import opened GitHub
  import opened Wrappers

  /** Any boolean: the outcome of something outside the model. */
  method Chance() returns (b: bool)
  {
    b := *;
  }

  class Repository {
    var hub: Hub
    const targets: set<string>    // the branches pull requests may target
    var comments: seq<nat>        // the issues commented on, in order
    var synced: seq<nat>          // the issue branches brought up to date with their target, in order
    ghost var raised: nat         // the exceptions of calls to GitHub, the containers and the stores so far

    constructor (hub: Hub, targets: set<string>)
      ensures this.hub == hub && this.targets == targets
    {
      this.hub, this.targets := hub, targets;
      comments, synced, raised := [], [], 0;
    }

    /** Whether the next call outside raises: it may, at any time. */
    method Fails() returns (b: bool)
      modifies `raised
      ensures raised == old(raised) + if b then 1 else 0
    {
      b := *;
      if b { raised := raised + 1; }
    }

    /** The open issues with the trigger label, in any order, as they are now. */
    method ListReady() returns (r: Result<map<nat, Issue>>)
      modifies `raised
      ensures raised == old(raised) + if r.Raised? then 1 else 0
      ensures r.Ok? ==>
        r.value == map n | n in hub.issues && hub.issues[n].open && hub.issues[n].trigger :: hub.issues[n]
    {
      var fails := Fails();
      if fails { return Raised; }
      r := Ok(map n | n in hub.issues && hub.issues[n].open && hub.issues[n].trigger :: hub.issues[n]);
    }

    /** A missing issue reads as open. */
    method IsIssueClosed(n: nat) returns (r: Result<bool>)
      modifies `raised
      ensures raised == old(raised) + if r.Raised? then 1 else 0
      ensures r.Ok? ==> r.value == IsClosed(hub, n)
    {
      var fails := Fails();
      if fails { return Raised; }
      r := Ok(IsClosed(hub, n));
    }

    method OpenPrHeads() returns (r: Result<set<nat>>)
      modifies `raised
      ensures raised == old(raised) + if r.Raised? then 1 else 0
      ensures r.Ok? ==> r.value == Heads(hub.prs)
    {
      var fails := Fails();
      if fails { return Raised; }
      r := Ok(Heads(hub.prs));
    }

    method IssueBranches() returns (r: Result<set<nat>>)
      modifies `raised
      ensures raised == old(raised) + if r.Raised? then 1 else 0
      ensures r.Ok? ==> r.value == hub.branches
    {
      var fails := Fails();
      if fails { return Raised; }
      r := Ok(hub.branches);
    }

    method Push(n: nat) returns (r: Result<()>)
      modifies `hub, `raised
      ensures raised == old(raised) + if r.Raised? then 1 else 0
      ensures hub == if r.Ok? then PushBranch(old(hub), n) else old(hub)
    {
      var fails := Fails();
      if fails { return Raised; }
      hub := PushBranch(hub, n);
      r := Ok(());
    }

    method BranchExists(branch: string) returns (r: Result<bool>)
      modifies `raised
      ensures raised == old(raised) + if r.Raised? then 1 else 0
      ensures r.Ok? ==> r.value == (branch in targets)
    {
      var fails := Fails();
      if fails { return Raised; }
      r := Ok(branch in targets);
    }

    method ExistingOpenPr(head: nat, base: string) returns (r: Result<bool>)
      modifies `raised
      ensures raised == old(raised) + if r.Raised? then 1 else 0
      ensures r.Ok? ==> r.value == HasOpenPr(hub, head, base)
    {
      var fails := Fails();
      if fails { return Raised; }
      r := Ok(HasOpenPr(hub, head, base));
    }

    method BringUpToDate(head: nat, base: string) returns (r: Result<()>)
      modifies `synced, `raised
      ensures raised == old(raised) + if r.Raised? then 1 else 0
      ensures synced == if r.Ok? then old(synced) + [head] else old(synced)
    {
      var fails := Fails();
      if fails { return Raised; }
      synced := synced + [head];
      r := Ok(());
    }

    /** Refused when the head branch is gone. */
    method CreatePr(head: nat, base: string) returns (r: Result<()>)
      modifies `hub, `raised
      ensures raised == old(raised) + if r.Raised? then 1 else 0
      ensures hub == if r.Ok? then OpenPr(old(hub), head, base) else old(hub)
      ensures r.Ok? ==> head in old(hub).branches
    {
      var fails := Fails();
      if fails { return Raised; }
      if head !in hub.branches {
        raised := raised + 1;
        return Raised;
      }
      hub := OpenPr(hub, head, base);
      r := Ok(());
    }

    method CreateIssue(issue: Issue) returns (r: Result<()>, ghost number: nat)
      modifies `hub, `raised
      ensures raised == old(raised) + if r.Raised? then 1 else 0
      ensures r.Ok? ==> number !in old(hub).issues && hub == AddIssue(old(hub), number, issue)
      ensures r.Raised? ==> hub == old(hub)
    {
      var next := NextNumber(hub.issues.Keys);
      number := next;
      var fails := Fails();
      if fails { return Raised, number; }
      hub := AddIssue(hub, next, issue);
      r := Ok(());
    }

    method Comment(n: nat, mayFail: bool) returns (r: Result<()>)
      modifies `comments, `raised
      ensures raised == old(raised) + if r.Raised? then 1 else 0
      ensures r.Raised? ==> mayFail
      ensures comments == if r.Ok? then old(comments) + [n] else old(comments)
    {
      var fails := false;
      if mayFail { fails := Fails(); }
      if fails { return Raised; }
      comments := comments + [n];
      r := Ok(());
    }

    method AddHitlLabel(n: nat, mayFail: bool) returns (r: Result<()>)
      modifies `hub, `raised
      ensures raised == old(raised) + if r.Raised? then 1 else 0
      ensures r.Raised? ==> mayFail
      ensures hub == if r.Ok? then SetHitl(old(hub), n, true) else old(hub)
    {
      var fails := false;
      if mayFail { fails := Fails(); }
      if fails { return Raised; }
      hub := SetHitl(hub, n, true);
      r := Ok(());
    }
  }

  /** GitHub numbers a new issue with a number no issue has. */
  method NextNumber(used: set<nat>) returns (n: nat)
    ensures n !in used
  {
    var left := used;
    n := 0;
    while left != {}
      invariant left <= used
      invariant forall k | k in used && k !in left :: k < n
      decreases left
    {
      var m :| m in left;
      if n <= m { n := m + 1; }
      left := left - {m};
    }
  }
}
