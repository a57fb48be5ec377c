/**
  The on-chain event handlers and the tables they write: projects, contributions, milestones and the users they mention.
  Replaying a tail of events that has already been applied, as happens after a re-org rollback, changes nothing.
*/
module EventHandlers {
  import opened Wrappers

  datatype ProjectStatus = ACTIVE | COMPLETED | CANCELLED | SUSPENDED
  datatype MilestoneStatus = PENDING | APPROVED | REJECTED | DONE | FUNDED

  /** A project's title and category: the ones the indexer generates, or anything set elsewhere. */
  datatype Heading = Generated | Custom(title: string, category: string)

  datatype Terms = Terms(heading: Heading, goal: int, deadline: int, deleted: bool)
  datatype Project = Project(creator: string, terms: Terms, funds: int, status: ProjectStatus)
  datatype Receipt = Receipt(investor: string, project: nat, amount: int, timestamp: int)
  datatype Contribution = Contribution(receipt: Receipt, deleted: bool)
  datatype Progress = Progress(status: MilestoneStatus, completed: Option<int>)
  datatype Milestone = Milestone(project: nat, progress: Progress, deleted: bool)

  /** Rows by their unique keys: users by wallet (the live ones), projects by contract id, contributions by transaction hash. */
  datatype Tables = Tables(
    users: set<string>,
    projects: map<nat, Project>,
    contributions: map<string, Contribution>,
    milestones: map<nat, Milestone>)

  datatype Event =
    | ProjectCreated(project: nat, creator: string, goal: int, deadline: int)
    | ContributionMade(project: nat, contributor: string, amount: int, totalRaised: int, tx: string, at: int)
    | MilestoneApproved(project: nat)
    | MilestoneRejected(project: nat)
    | FundsReleased(project: nat, at: int)
    | ProjectCompleted(project: nat)
    | ProjectFailed(project: nat)
    | DividendClaimed(claimer: string)

  predicate Live(t: Tables, p: nat) {
    p in t.projects && !t.projects[p].terms.deleted
  }

  /** `updateMany` on the live milestones of a project. */
  function MarkMilestones(ms: map<nat, Milestone>, p: nat, status: MilestoneStatus, completed: Option<int>): map<nat, Milestone> {
    map m | m in ms ::
      if ms[m].project == p && !ms[m].deleted
      then ms[m].(progress := Progress(status, if completed.Some? then completed else ms[m].progress.completed))
      else ms[m]
  }

  function SetStatus(t: Tables, p: nat, status: ProjectStatus): Tables {
    if Live(t, p) then t.(projects := t.projects[p := t.projects[p].(status := status)]) else t
  }

  /** The effect of one handler on the tables. */
  function Apply(t: Tables, e: Event): Tables {
    match e
    case ProjectCreated(p, creator, goal, deadline) =>
      var terms := Terms(Generated, goal, deadline, false);
      var row := if p in t.projects then t.projects[p].(terms := terms, status := ACTIVE) else Project(creator, terms, 0, ACTIVE);
      t.(users := t.users + {creator}, projects := t.projects[p := row])
    case ContributionMade(p, who, amount, total, tx, at) =>
      var t1 := t.(users := t.users + {who});
      if !Live(t, p) then t1
      else
        var row := if tx in t.contributions then t.contributions[tx].(deleted := false)
                   else Contribution(Receipt(who, p, amount, at), false);
        t1.(contributions := t.contributions[tx := row], projects := t.projects[p := t.projects[p].(funds := total)])
    case MilestoneApproved(p) =>
      if Live(t, p) then t.(milestones := MarkMilestones(t.milestones, p, APPROVED, None)) else t
    case MilestoneRejected(p) =>
      if Live(t, p) then t.(milestones := MarkMilestones(t.milestones, p, REJECTED, None)) else t
    case FundsReleased(p, at) =>
      if Live(t, p) then t.(milestones := MarkMilestones(t.milestones, p, FUNDED, Some(at))) else t
    case ProjectCompleted(p) => SetStatus(t, p, COMPLETED)
    case ProjectFailed(p) => SetStatus(t, p, CANCELLED)
    case DividendClaimed(who) => t.(users := t.users + {who})
  }

  function ApplyAll(t: Tables, es: seq<Event>): Tables
    decreases |es|
  {
    if es == [] then t else ApplyAll(Apply(t, es[0]), es[1..])
  }

  /* ---- the handlers as they run: repository calls in order ---- */

  class EventHandlerService {
    var users: set<string>
    var projects: map<nat, Project>
    var contributions: map<string, Contribution>
    var milestones: map<nat, Milestone>

    constructor (t: Tables)
      ensures View() == t
    {
      users, projects, contributions, milestones := t.users, t.projects, t.contributions, t.milestones;
    }

    function View(): Tables
      reads this
    {
      Tables(users, projects, contributions, milestones)
    }

    method UpsertByWallet(wallet: string)
      modifies this`users
      ensures users == old(users) + {wallet}
    {
      users := users + {wallet};
    }

    method FindByContractId(p: nat) returns (found: Option<Project>)
      ensures found == if Live(View(), p) then Some(projects[p]) else None
    {
      found := if p in projects && !projects[p].terms.deleted then Some(projects[p]) else None;
    }

    method UpdateMilestones(p: nat, status: MilestoneStatus, completed: Option<int>)
      modifies this`milestones
      ensures milestones == MarkMilestones(old(milestones), p, status, completed)
    {
      milestones := map m | m in milestones ::
        if milestones[m].project != p || milestones[m].deleted then milestones[m]
        else Milestone(p, Progress(status, if completed.None? then milestones[m].progress.completed else completed), false);
    }

    method UpdateStatusByContractId(p: nat, status: ProjectStatus)
      modifies this`projects
      ensures View() == SetStatus(old(View()), p, status)
    {
      if p in projects && !projects[p].terms.deleted {
        projects := projects[p := projects[p].(status := status)];
      }
    }

    /** Dispatch to the handler registered for the event's type, which may refuse the event's data. */
    method ProcessEvent(e: Event, valid: bool) returns (success: bool)
      modifies this
      ensures success == valid
      ensures View() == if valid then Apply(old(View()), e) else old(View())
    {
      if !valid {
        return false;
      }
      Handle(e);
      success := true;
    }

    method Handle(e: Event)
      modifies this
      ensures View() == Apply(old(View()), e)
    {
      match e {
        case ProjectCreated(p, creator, goal, deadline) =>
          UpsertByWallet(creator);
          if p !in projects {
            projects := projects[p := Project(creator, Terms(Generated, goal, deadline, false), 0, ACTIVE)];
          } else {
            projects := projects[p := projects[p].(terms := Terms(Generated, goal, deadline, false), status := ACTIVE)];
          }
        case ContributionMade(p, who, amount, total, tx, at) =>
          UpsertByWallet(who);
          var project := FindByContractId(p);
          if project.None? { return; }
          if tx !in contributions {
            contributions := contributions[tx := Contribution(Receipt(who, p, amount, at), false)];
          } else {
            contributions := contributions[tx := contributions[tx].(deleted := false)];
          }
          projects := projects[p := project.value.(funds := total)];
        case MilestoneApproved(p) =>
          var project := FindByContractId(p);
          if project.None? { return; }
          UpdateMilestones(p, APPROVED, None);
        case MilestoneRejected(p) =>
          var project := FindByContractId(p);
          if project.None? { return; }
          UpdateMilestones(p, REJECTED, None);
        case FundsReleased(p, at) =>
          var project := FindByContractId(p);
          if project.None? { return; }
          UpdateMilestones(p, FUNDED, Some(at));
        case ProjectCompleted(p) => UpdateStatusByContractId(p, COMPLETED);
        case ProjectFailed(p) => UpdateStatusByContractId(p, CANCELLED);
        case DividendClaimed(who) => UpsertByWallet(who);
      }
    }
  }

  /**
    An event about a project that is missing or deleted changes nothing, except that a contribution still registers its
    contributor; only a creation revives a deleted project.
  */
  lemma DeadProjectIgnored(t: Tables, e: Event)
    requires !e.ProjectCreated? && !e.DividendClaimed?
    requires e.project !in t.projects || t.projects[e.project].terms.deleted
    ensures Apply(t, e) == if e.ContributionMade? then t.(users := t.users + {e.contributor}) else t
  {
  }

  /* ---- when an event takes effect ---- */

  predicate NeedsProject(e: Event) {
    !e.ProjectCreated? && !e.DividendClaimed?
  }

  predicate Ready(t: Tables, e: Event) {
    NeedsProject(e) ==> Live(t, e.project)
  }

  predicate Creates(e: Event, p: nat) {
    e.ProjectCreated? && e.project == p
  }

  /** Every event on a project comes after the project's creation in the list, or the project was there to begin with. */
  predicate Grounded(t: Tables, es: seq<Event>) {
    forall k | 0 <= k < |es| && NeedsProject(es[k]) ::
      Live(t, es[k].project) || exists j | 0 <= j < k :: Creates(es[j], es[k].project)
  }

  /** Every event of the list finds its project when its turn comes. */
  predicate ReadyAll(t: Tables, es: seq<Event>) {
    forall k | 0 <= k < |es| :: Ready(ApplyAll(t, es[..k]), es[k])
  }

  lemma {:induction false} ApplyAllConcat(t: Tables, a: seq<Event>, b: seq<Event>)
    ensures ApplyAll(t, a + b) == ApplyAll(ApplyAll(t, a), b)
    decreases |a|
  {
    hide Apply;
    if a == [] {
      assert a + b == b;
    } else {
      assert (a + b)[1..] == a[1..] + b;
      ApplyAllConcat(Apply(t, a[0]), a[1..], b);
    }
  }

  lemma ApplyLast(t: Tables, es: seq<Event>)
    requires es != []
    ensures ApplyAll(t, es) == Apply(ApplyAll(t, es[..|es| - 1]), es[|es| - 1])
  {
    hide Apply;
    assert es == es[..|es| - 1] + [es[|es| - 1]];
    ApplyAllConcat(t, es[..|es| - 1], [es[|es| - 1]]);
    assert [es[|es| - 1]][1..] == [];
  }

  lemma LiveStep(t: Tables, e: Event, p: nat)
    ensures Live(Apply(t, e), p) <==> Live(t, p) || Creates(e, p)
  {
  }

  predicate Created(es: seq<Event>, p: nat) {
    exists j | 0 <= j < |es| :: Creates(es[j], p)
  }

  /** A project is live after a list exactly when it was before or the list creates it. */
  lemma {:induction false} LiveAfter(t: Tables, es: seq<Event>, p: nat)
    ensures Live(ApplyAll(t, es), p) <==> Live(t, p) || Created(es, p)
  {
    hide Apply, Creates, Live;
    if es != [] {
      var front := es[..|es| - 1];
      ApplyLast(t, es);
      LiveStep(ApplyAll(t, front), es[|es| - 1], p);
      LiveAfter(t, front, p);
      assert es == front + [es[|es| - 1]];
      assert Created(es, p) <==> Created(front, p) || Creates(es[|es| - 1], p) by {
        if Created(front, p) {
          var j :| 0 <= j < |front| && Creates(front[j], p);
          assert Creates(es[j], p);
        }
      }
    }
  }

  lemma GroundedReady(t: Tables, es: seq<Event>)
    requires Grounded(t, es)
    ensures ReadyAll(t, es)
  {
    hide Apply, ApplyAll, Creates, Live;
    forall k | 0 <= k < |es|
      ensures Ready(ApplyAll(t, es[..k]), es[k])
    {
      if NeedsProject(es[k]) {
        var p := es[k].project;
        LiveAfter(t, es[..k], p);
        if !Live(t, p) {
          var j :| 0 <= j < k && Creates(es[j], p);
          assert Creates(es[..k][j], p);
        }
      }
    }
  }

  /* ---- one cell at a time ---- */

  /** A stored value an event either leaves alone, overwrites, or fills in when it is missing. */
  datatype Cell =
    | UserCell(wallet: string)
    | CreatorCell(project: nat) | TermsCell(project: nat) | FundsCell(project: nat) | StatusCell(project: nat)
    | ReceiptCell(tx: string) | ContributionLive(tx: string)
    | MilestoneStatusCell(milestone: nat, project: nat) | CompletedCell(milestone: nat, project: nat)

  datatype Content =
    | Present | OfCreator(creator: string) | OfTerms(terms: Terms) | OfFunds(funds: int) | OfStatus(status: ProjectStatus)
    | OfReceipt(receipt: Receipt) | OfDeleted(deleted: bool) | OfMilestone(progress: MilestoneStatus) | OfCompleted(at: Option<int>)

  function Look(t: Tables, c: Cell): Option<Content> {
    match c
    case UserCell(w) => if w in t.users then Some(Present) else None
    case CreatorCell(p) => if p in t.projects then Some(OfCreator(t.projects[p].creator)) else None
    case TermsCell(p) => if p in t.projects then Some(OfTerms(t.projects[p].terms)) else None
    case FundsCell(p) => if p in t.projects then Some(OfFunds(t.projects[p].funds)) else None
    case StatusCell(p) => if p in t.projects then Some(OfStatus(t.projects[p].status)) else None
    case ReceiptCell(tx) => if tx in t.contributions then Some(OfReceipt(t.contributions[tx].receipt)) else None
    case ContributionLive(tx) => if tx in t.contributions then Some(OfDeleted(t.contributions[tx].deleted)) else None
    case MilestoneStatusCell(m, p) => if Tracks(t, m, p) then Some(OfMilestone(t.milestones[m].progress.status)) else None
    case CompletedCell(m, p) => if Tracks(t, m, p) then Some(OfCompleted(t.milestones[m].progress.completed)) else None
  }

  /** `m` is a live milestone of project `p`. */
  predicate Tracks(t: Tables, m: nat, p: nat) {
    m in t.milestones && t.milestones[m].project == p && !t.milestones[m].deleted
  }

  datatype Act = Keep | Put(v: Content) | Fill(v: Content)

  function Do(a: Act, x: Option<Content>): Option<Content> {
    match a
    case Keep => x
    case Put(v) => Some(v)
    case Fill(v) => if x.Some? then x else Some(v)
  }

  function ActOn(c: Cell, e: Event): Act {
    match e
    case ProjectCreated(p, creator, goal, deadline) =>
      if c == UserCell(creator) then Put(Present)
      else if c == CreatorCell(p) then Fill(OfCreator(creator))
      else if c == TermsCell(p) then Put(OfTerms(Terms(Generated, goal, deadline, false)))
      else if c == FundsCell(p) then Fill(OfFunds(0))
      else if c == StatusCell(p) then Put(OfStatus(ACTIVE))
      else Keep
    case ContributionMade(p, who, amount, total, tx, at) =>
      if c == UserCell(who) then Put(Present)
      else if c == ReceiptCell(tx) then Fill(OfReceipt(Receipt(who, p, amount, at)))
      else if c == ContributionLive(tx) then Put(OfDeleted(false))
      else if c == FundsCell(p) then Put(OfFunds(total))
      else Keep
    case MilestoneApproved(p) => if c.MilestoneStatusCell? && c.project == p then Put(OfMilestone(APPROVED)) else Keep
    case MilestoneRejected(p) => if c.MilestoneStatusCell? && c.project == p then Put(OfMilestone(REJECTED)) else Keep
    case FundsReleased(p, at) =>
      if c.MilestoneStatusCell? && c.project == p then Put(OfMilestone(FUNDED))
      else if c.CompletedCell? && c.project == p then Put(OfCompleted(Some(at)))
      else Keep
    case ProjectCompleted(p) => if c == StatusCell(p) then Put(OfStatus(COMPLETED)) else Keep
    case ProjectFailed(p) => if c == StatusCell(p) then Put(OfStatus(CANCELLED)) else Keep
    case DividendClaimed(who) => if c == UserCell(who) then Put(Present) else Keep
  }

  /** Milestone rows are never created or moved here, so their cells matter only where the milestone exists. */
  predicate Relevant(t: Tables, c: Cell) {
    c.MilestoneStatusCell? || c.CompletedCell? ==> Tracks(t, c.milestone, c.project)
  }

  /** What an event does to a cell in the state it meets: without its project it only registers users. */
  function ActIn(t: Tables, c: Cell, e: Event): Act {
    if Ready(t, e) || c.UserCell? then ActOn(c, e) else Keep
  }

  lemma DroppedKeeps(t: Tables, e: Event, c: Cell)
    requires !Ready(t, e) && !c.UserCell?
    ensures Look(Apply(t, e), c) == Look(t, c) && (Relevant(t, c) ==> Relevant(Apply(t, e), c))
  {
    assert Apply(t, e) == t.(users := Apply(t, e).users);
  }

  predicate OnMilestones(e: Event) {
    e.MilestoneApproved? || e.MilestoneRejected? || e.FundsReleased?
  }

  lemma MilestoneActs(t: Tables, e: Event, c: Cell)
    requires Relevant(t, c) && Ready(t, e) && OnMilestones(e)
    ensures Relevant(Apply(t, e), c) && Look(Apply(t, e), c) == Do(ActOn(c, e), Look(t, c))
  {
    if !c.MilestoneStatusCell? && !c.CompletedCell? {
      assert Apply(t, e) == t.(milestones := Apply(t, e).milestones);
    }
  }

  lemma ContributionActs(t: Tables, e: Event, c: Cell)
    requires Relevant(t, c) && (Ready(t, e) || c.UserCell?) && e.ContributionMade?
    ensures Relevant(Apply(t, e), c) && Look(Apply(t, e), c) == Do(ActOn(c, e), Look(t, c))
  {
  }

  lemma ProjectActs(t: Tables, e: Event, c: Cell)
    requires Relevant(t, c) && (Ready(t, e) || c.UserCell?) && !OnMilestones(e) && !e.ContributionMade?
    ensures Relevant(Apply(t, e), c) && Look(Apply(t, e), c) == Do(ActOn(c, e), Look(t, c))
  {
  }

  lemma ApplyActs(t: Tables, e: Event, c: Cell)
    requires Relevant(t, c)
    ensures Relevant(Apply(t, e), c) && Look(Apply(t, e), c) == Do(ActIn(t, c, e), Look(t, c))
  {
    if !Ready(t, e) && !c.UserCell? {
      DroppedKeeps(t, e, c);
    } else {
      hide Apply, Look, Do, ActOn, Relevant;
      if e.ContributionMade? {
        ContributionActs(t, e, c);
      } else if !OnMilestones(e) {
        ProjectActs(t, e, c);
      } else if Ready(t, e) {
        MilestoneActs(t, e, c);
      } else {
        UserOnly(t, e, c);
      }
    }
  }

  lemma UserOnly(t: Tables, e: Event, c: Cell)
    requires !Ready(t, e) && OnMilestones(e) && c.UserCell?
    ensures Relevant(Apply(t, e), c) && Look(Apply(t, e), c) == Do(ActOn(c, e), Look(t, c))
  {
    assert Apply(t, e) == t;
  }

  function Fold(acts: seq<Act>, x: Option<Content>): Option<Content> {
    if acts == [] then x else Do(acts[|acts| - 1], Fold(acts[..|acts| - 1], x))
  }

  /** The actions of a list on a cell, each in the state its event meets. */
  function ActsOn(t: Tables, c: Cell, es: seq<Event>): seq<Act> {
    seq(|es|, k requires 0 <= k < |es| => ActIn(ApplyAll(t, es[..k]), c, es[k]))
  }

  /** A cell after a list of events is the fold of its actions. */
  lemma {:induction false} ApplyAllFolds(t: Tables, es: seq<Event>, c: Cell)
    requires Relevant(t, c)
    ensures Relevant(ApplyAll(t, es), c) && Look(ApplyAll(t, es), c) == Fold(ActsOn(t, c, es), Look(t, c))
  {
    hide Apply, Look, Do, ActIn, Relevant;
    if es != [] {
      var front := es[..|es| - 1];
      ApplyAllFolds(t, front, c);
      ApplyLast(t, es);
      ApplyActs(ApplyAll(t, front), es[|es| - 1], c);
      assert forall k | 0 <= k < |front| :: es[..k] == front[..k];
      assert ActsOn(t, c, es)[..|es| - 1] == ActsOn(t, c, front);
    }
  }

  /* ---- folds of actions ---- */

  /** After a last overwriting action nothing before it matters. */
  lemma {:induction false} FoldAfterPut(acts: seq<Act>, x: Option<Content>, k: nat)
    requires k < |acts| && acts[k].Put? && forall j | k < j < |acts| :: !acts[j].Put?
    ensures Fold(acts, x) == Some(acts[k].v)
  {
    if k < |acts| - 1 { FoldAfterPut(acts[..|acts| - 1], x, k); }
  }

  lemma {:induction false} FoldFilled(acts: seq<Act>, x: Option<Content>)
    ensures x.Some? || (exists k | 0 <= k < |acts| :: acts[k] != Keep) <==> Fold(acts, x).Some?
    ensures x.Some? && (forall k | 0 <= k < |acts| :: !acts[k].Put?) ==> Fold(acts, x) == x
  {
    if acts != [] { FoldFilled(acts[..|acts| - 1], x); }
  }

  lemma {:induction false} LastPut(acts: seq<Act>, n: nat) returns (k: nat)
    requires n <= |acts| && (exists j | 0 <= j < n :: acts[j].Put?) && forall j | n <= j < |acts| :: !acts[j].Put?
    ensures k < n && acts[k].Put? && forall j | k < j < |acts| :: !acts[j].Put?
  {
    if acts[n - 1].Put? { k := n - 1; } else { k := LastPut(acts, n - 1); }
  }

  /** Action `k` was left out the first time, would change what the first time left, and no later one overwrites it. */
  predicate Decisive(first: seq<Act>, again: seq<Act>, left: Option<Content>, k: nat)
    requires k < |first| == |again|
  {
    first[k] != again[k] && Do(again[k], left) != left && forall j | k < j < |again| :: !again[j].Put?
  }

  /** Repeating a list of which some actions were left out the first time changes the cell exactly when one left out is decisive. */
  lemma FoldAgain(first: seq<Act>, again: seq<Act>, x: Option<Content>)
    requires |first| == |again| && forall k | 0 <= k < |first| :: first[k] == again[k] || first[k] == Keep
    ensures var left := Fold(first, x);
      Fold(again, left) != left <==> exists k :: 0 <= k < |again| && Decisive(first, again, left, k)
  {
    hide Fold;
    var left := Fold(first, x);
    FoldFilled(first, x);
    FoldFilled(again, left);
    if k :| 0 <= k < |again| && Decisive(first, again, left, k) {
      if again[k].Put? { FoldAfterPut(again, left, k); }
    }
    if Fold(again, left) != left {
      if exists j | 0 <= j < |again| :: again[j].Put? {
        var k := LastPut(again, |again|);
        FoldAfterPut(again, left, k);
        if first[k] == again[k] { FoldAfterPut(first, x, k); }
        assert Decisive(first, again, left, k);
      } else {
        assert left.None?;
        var k :| 0 <= k < |again| && again[k] != Keep;
        assert Decisive(first, again, left, k);
      }
    }
  }

  /* ---- replay ---- */

  /** The milestone table keeps its rows, their projects and their deletion marks. */
  predicate SameShape(t: Tables, u: Tables) {
    && t.milestones.Keys == u.milestones.Keys
    && forall m | m in t.milestones ::
      && t.milestones[m].project == u.milestones[m].project && t.milestones[m].deleted == u.milestones[m].deleted
      && (t.milestones[m].deleted ==> t.milestones[m] == u.milestones[m])
  }

  /** Handlers never add, drop, move or revive a milestone. */
  lemma {:induction false} ShapeKept(t: Tables, es: seq<Event>)
    ensures SameShape(t, ApplyAll(t, es))
    decreases |es|
  {
    if es != [] {
      assert SameShape(t, Apply(t, es[0]));
      ShapeKept(Apply(t, es[0]), es[1..]);
    }
  }

  ghost predicate SameCells(t: Tables, u: Tables) {
    forall c | Relevant(t, c) :: Look(t, c) == Look(u, c)
  }

  /** The cells determine the tables. */
  lemma CellsDetermine(t: Tables, u: Tables)
    requires SameShape(t, u) && SameCells(t, u)
    ensures t == u
  {
    assert t.users == u.users by {
      forall w ensures w in t.users <==> w in u.users { assert Look(t, UserCell(w)) == Look(u, UserCell(w)); }
    }
    SameProjects(t, u);
    SameContributions(t, u);
    SameMilestones(t, u);
  }

  lemma SameProjects(t: Tables, u: Tables)
    requires SameCells(t, u)
    ensures t.projects == u.projects
  {
    forall p
      ensures p in t.projects <==> p in u.projects
      ensures p in t.projects ==> t.projects[p] == u.projects[p]
    {
      assert Look(t, CreatorCell(p)) == Look(u, CreatorCell(p));
      assert Look(t, TermsCell(p)) == Look(u, TermsCell(p));
      assert Look(t, FundsCell(p)) == Look(u, FundsCell(p));
      assert Look(t, StatusCell(p)) == Look(u, StatusCell(p));
    }
  }

  lemma SameContributions(t: Tables, u: Tables)
    requires SameCells(t, u)
    ensures t.contributions == u.contributions
  {
    forall tx
      ensures tx in t.contributions <==> tx in u.contributions
      ensures tx in t.contributions ==> t.contributions[tx] == u.contributions[tx]
    {
      assert Look(t, ReceiptCell(tx)) == Look(u, ReceiptCell(tx));
      assert Look(t, ContributionLive(tx)) == Look(u, ContributionLive(tx));
    }
  }

  lemma SameMilestones(t: Tables, u: Tables)
    requires SameShape(t, u) && SameCells(t, u)
    ensures t.milestones == u.milestones
  {
    forall m | m in t.milestones
      ensures t.milestones[m] == u.milestones[m]
    {
      if !t.milestones[m].deleted {
        var p := t.milestones[m].project;
        assert Look(t, MilestoneStatusCell(m, p)) == Look(u, MilestoneStatusCell(m, p));
        assert Look(t, CompletedCell(m, p)) == Look(u, CompletedCell(m, p));
      }
    }
  }

  /**
    Event `k` found no project the first time but would find it now; it writes something to a cell that holds something
    else, and no later event that would find its project overwrites that cell.
  */
  ghost predicate Missed(t: Tables, es: seq<Event>, k: nat, c: Cell)
    requires k < |es|
  {
    var u := ApplyAll(t, es);
    && !Ready(ApplyAll(t, es[..k]), es[k]) && Ready(u, es[k])
    && !c.UserCell? && Relevant(u, c)
    && Do(ActOn(c, es[k]), Look(u, c)) != Look(u, c)
    && forall j | k < j < |es| && Ready(u, es[j]) :: !ActOn(c, es[j]).Put?
  }

  /** During the replay exactly the projects live at its start are live. */
  lemma ReplayReady(t: Tables, es: seq<Event>, k: nat)
    requires k < |es|
    ensures Ready(ApplyAll(ApplyAll(t, es), es[..k]), es[k]) <==> Ready(ApplyAll(t, es), es[k])
    ensures Ready(ApplyAll(t, es[..k]), es[k]) ==> Ready(ApplyAll(t, es), es[k])
  {
    hide Apply, ApplyAll, Creates, Live;
    if NeedsProject(es[k]) {
      var p := es[k].project;
      LiveAfter(t, es, p);
      LiveAfter(t, es[..k], p);
      LiveAfter(ApplyAll(t, es), es[..k], p);
      if Created(es[..k], p) {
        var j :| 0 <= j < k && Creates(es[..k][j], p);
        assert Creates(es[j], p);
      }
    }
  }

  lemma ReplayActs(t: Tables, es: seq<Event>, c: Cell, k: nat)
    requires k < |es|
    ensures var first, again := ActsOn(t, c, es), ActsOn(ApplyAll(t, es), c, es);
      && again[k] == ActIn(ApplyAll(t, es), c, es[k])
      && (first[k] == again[k] || first[k] == Keep)
      && (first[k] != again[k] ==> !c.UserCell? && !Ready(ApplyAll(t, es[..k]), es[k]) && Ready(ApplyAll(t, es), es[k]))
  {
    hide Apply, ApplyAll, Ready;
    ReplayReady(t, es, k);
  }

  lemma ReplayCell(t: Tables, es: seq<Event>, c: Cell)
    requires Relevant(ApplyAll(t, es), c) && Relevant(t, c)
    ensures Look(ApplyAll(ApplyAll(t, es), es), c) != Look(ApplyAll(t, es), c) <==> exists k :: 0 <= k < |es| && Missed(t, es, k, c)
  {
    hide Apply, ApplyAll, Ready, Look, ActOn, Relevant;
    var u := ApplyAll(t, es);
    var first, again := ActsOn(t, c, es), ActsOn(u, c, es);
    ApplyAllFolds(t, es, c);
    ApplyAllFolds(u, es, c);
    forall k | 0 <= k < |es|
      ensures again[k] == ActIn(u, c, es[k]) && (first[k] == again[k] || first[k] == Keep)
      ensures first[k] != again[k] ==> !c.UserCell? && !Ready(ApplyAll(t, es[..k]), es[k]) && Ready(u, es[k])
    {
      ReplayActs(t, es, c, k);
    }
    FoldAgain(first, again, Look(t, c));
    forall k | 0 <= k < |es|
      ensures Decisive(first, again, Look(u, c), k) <==> Missed(t, es, k, c)
    {
      assert first[k] == ActIn(ApplyAll(t, es[..k]), c, es[k]);
    }
  }

  lemma RelevantBefore(t: Tables, es: seq<Event>, c: Cell)
    ensures Relevant(ApplyAll(t, es), c) <==> Relevant(t, c)
  {
    ShapeKept(t, es);
  }

  /**
    Exactly when applying a list a second time changes the tables: when some event dropped the first time is missed, that
    is, writes a cell that no later event overwrites.
  */
  lemma ReplayChanges(t: Tables, es: seq<Event>)
    ensures ApplyAll(ApplyAll(t, es), es) != ApplyAll(t, es) <==> exists k, c :: 0 <= k < |es| && Missed(t, es, k, c)
  {
    hide Apply, ApplyAll, Look, Relevant, Missed;
    var u := ApplyAll(t, es);
    var v := ApplyAll(u, es);
    if k, c :| 0 <= k < |es| && Missed(t, es, k, c) {
      assert Relevant(u, c) by { MissedRelevant(t, es, k, c); }
      RelevantBefore(t, es, c);
      ReplayCell(t, es, c);
    }
    if v != u {
      ShapeKept(u, es);
      if SameCells(u, v) { CellsDetermine(u, v); }
      var c :| Relevant(u, c) && Look(u, c) != Look(v, c);
      RelevantBefore(t, es, c);
      ReplayCell(t, es, c);
    }
  }

  lemma MissedRelevant(t: Tables, es: seq<Event>, k: nat, c: Cell)
    requires k < |es| && Missed(t, es, k, c)
    ensures Relevant(ApplyAll(t, es), c) && !Ready(ApplyAll(t, es[..k]), es[k])
  {
  }

  /** In particular a list changes nothing the second time if each of its events finds its project the first time. */
  lemma ReplayIsIdle(t: Tables, es: seq<Event>)
    requires ReadyAll(t, es)
    ensures ApplyAll(ApplyAll(t, es), es) == ApplyAll(t, es)
  {
    hide Apply, ApplyAll, Ready, Missed;
    ReplayChanges(t, es);
    if k, c :| 0 <= k < |es| && Missed(t, es, k, c) {
      MissedRelevant(t, es, k, c);
      assert false;
    }
  }

  lemma ReadyTail(t: Tables, a: seq<Event>, b: seq<Event>)
    requires ReadyAll(t, a + b)
    ensures ReadyAll(ApplyAll(t, a), b)
  {
    hide Apply, ApplyAll, Ready;
    forall k | 0 <= k < |b|
      ensures Ready(ApplyAll(ApplyAll(t, a), b[..k]), b[k])
    {
      assert (a + b)[..|a| + k] == a + b[..k] && (a + b)[|a| + k] == b[k];
      ApplyAllConcat(t, a, b[..k]);
    }
  }

  /** Re-processing a tail that was already applied, after a re-org rollback for instance, leaves every table as it was. */
  lemma ReplayedTail(t: Tables, a: seq<Event>, b: seq<Event>)
    requires Grounded(t, a + b)
    ensures ApplyAll(t, a + b + b) == ApplyAll(t, a + b)
  {
    hide Apply, ApplyAll, ReadyAll;
    GroundedReady(t, a + b);
    ReadyTail(t, a, b);
    ApplyAllConcat(t, a, b);
    ApplyAllConcat(t, a + b, b);
    ReplayIsIdle(ApplyAll(t, a), b);
  }

  /** The grounding condition matters: a contribution seen before its project is dropped, and recorded by the replay. */
  lemma UngroundedReplayDiffers(e: Event, f: Event)
    requires e == ContributionMade(1, "G", 10, 10, "tx", 0) && f == ProjectCreated(1, "C", 100, 0)
    ensures var empty := Tables({}, map[], map[], map[]);
      && "tx" !in ApplyAll(empty, [e, f]).contributions
      && "tx" in ApplyAll(empty, [e, f] + [e, f]).contributions
  {
    var empty := Tables({}, map[], map[], map[]);
    var t1 := Apply(Apply(empty, e), f);
    ApplyAllConcat(empty, [e, f], [e, f]);
    assert [e, f][1..] == [f] && [f][1..] == [];
    assert forall t :: ApplyAll(t, [e, f]) == ApplyAll(Apply(t, e), [f]);
    assert forall t :: ApplyAll(t, [f]) == ApplyAll(Apply(t, f), []);
    assert ApplyAll(empty, [e, f]) == t1;
    assert ApplyAll(t1, [e, f]) == Apply(Apply(t1, e), f);
  }
}
