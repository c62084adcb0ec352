/**
 The part of one repository's GitHub state that the scheduler lane reads and writes: issues with the
 labels that matter, `issue-<N>` branches (named by their number), and open pull requests.
 */
module GitHub {
  import ChainDepth
  import opened Wrappers

  /**
   `urgent` stands for a `priority:<tier>` label in the drop-everything range. `parent` is the issue whose
   review filed this one as a nit; GitHub does not record it, and nothing the lane does reads it.
   */
  datatype Issue = Issue(
    open: bool, trigger: bool, hitl: bool, backlog: bool, urgent: bool, body: string, parent: Option<nat>)

  datatype PullRequest = PullRequest(head: nat, base: string)

  /** `prs` has one entry per open pull request. */
  datatype Hub = Hub(issues: map<nat, Issue>, branches: set<nat>, prs: seq<PullRequest>)

  /** The heads of the open pull requests: what `gh pr list --json headRefName` yields. */
  function Heads(prs: seq<PullRequest>): set<nat> {
    set p | p in prs :: p.head
  }

  predicate OneOpenPrPerHead(prs: seq<PullRequest>) {
    forall i, j | 0 <= i < j < |prs| :: prs[i].head != prs[j].head
  }

  predicate IsClosed(hub: Hub, n: nat) {
    n in hub.issues && !hub.issues[n].open
  }

  /** The listing query plus `ReadyIssue.is_admissible`. */
  predicate Admissible(issue: Issue) {
    issue.open && issue.trigger && !issue.hitl
  }

  datatype FlightState = Absent | Stranded | InFlight

  /** `FlightSnapshot.state_for`. */
  function StateFor(heads: set<nat>, branches: set<nat>, n: nat): FlightState {
    if n !in branches then Absent else if n in heads then InFlight else Stranded
  }

  function SetHitl(hub: Hub, n: nat, on: bool): Hub {
    if n in hub.issues then hub.(issues := hub.issues[n := hub.issues[n].(hitl := on)]) else hub
  }

  function PushBranch(hub: Hub, n: nat): Hub {
    hub.(branches := hub.branches + {n})
  }

  function OpenPr(hub: Hub, head: nat, base: string): Hub {
    hub.(prs := hub.prs + [PullRequest(head, base)])
  }

  predicate HasOpenPr(hub: Hub, head: nat, base: string) {
    PullRequest(head, base) in hub.prs
  }

  /** A nit filed by the pipeline: `backlog`, no trigger label, the chain marker one deeper at the end. */
  function Nit(parent: nat, depth: nat, body: string, urgent: bool): Issue {
    Issue(true, false, false, true, urgent, ChainDepth.FiledBody(body, depth), Some(parent))
  }

  function AddIssue(hub: Hub, n: nat, issue: Issue): Hub {
    hub.(issues := hub.issues[n := issue])
  }

  /** Deleting a branch closes the pull requests opened from it. */
  function WithoutHead(prs: seq<PullRequest>, n: nat): (r: seq<PullRequest>)
    ensures forall p :: p in r <==> p in prs && p.head != n
    ensures OneOpenPrPerHead(prs) ==> OneOpenPrPerHead(r)
  {
    if prs == [] then []
    else
      var rest := WithoutHead(prs[1..], n);
      assert prs == [prs[0]] + prs[1..];
      assert OneOpenPrPerHead(prs) ==> OneOpenPrPerHead(prs[1..]);
      if prs[0].head == n then rest else [prs[0]] + rest
  }

  function ClosePr(prs: seq<PullRequest>, i: nat): (r: seq<PullRequest>)
    requires i < |prs|
    ensures forall p | p in r :: p in prs
    ensures OneOpenPrPerHead(prs) ==> OneOpenPrPerHead(r)
  {
    prs[..i] + prs[i + 1..]
  }
}
