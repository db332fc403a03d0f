/** A proposal put to the vote of a class that governs itself: a frozen electorate,
    a threshold that is never lowered, and execution only while what was voted on
    still stands (mock/src/governance.ts). Each request is one step. */
module GovernanceProposal {
  import opened Options

  type User = string

  const DAY := 86400000
  const ADVANCE := 4 * DAY

  datatype Membership = Membership(joinedAt: int, left: bool)

  /** What a proposal depends on outside itself. The roster holds the active
      members of the class; scheme and timeline stand for their contents. */
  datatype World = World(
    now: int, roster: set<User>, registered: set<User>, members: map<User, Membership>,
    scheme: string, timeline: string)

  datatype Fingerprint = Fingerprint(roster: set<User>, scheme: string, timeline: string)

  function FingerprintOf(w: World): Fingerprint {
    Fingerprint(w.roster, w.scheme, w.timeline)
  }

  predicate Eligible(w: World, u: User) {
    && u in w.roster && u in w.registered
    && u in w.members && !w.members[u].left && w.members[u].joinedAt <= w.now - DAY
  }

  function Electorate(w: World): set<User> {
    set u | u in w.roster && Eligible(w, u)
  }

  datatype Kind = Ordinary | BonusKind | Protected | Activation | OtherKind

  datatype Action = Motion | Timeline | Bonus(students: seq<User>) | Gpa | Export | Activate

  datatype Choice = Yes | No | Abstain

  datatype Seat = Seat(choice: Option<Choice>, locked: bool)

  datatype Status = Discussion | Passed | Rejected | Stale | Applied

  datatype Proposal = Proposal(
    kind: Kind, action: Action, author: User, voters: map<User, Seat>, requiredYes: nat,
    opensAt: int, closesAt: int, status: Status, snapshot: Fingerprint, executed: bool)

  // ------------------------------------------------------------------ thresholds

  function CeilDiv(a: nat, b: nat): nat
    requires b > 0
  {
    (a + b - 1) / b
  }

  /** The number of yes votes a proposal needs among `count` voters. */
  function Required(kind: Kind, count: nat, roster: nat): (n: nat)
    ensures n >= 3 && 2 * n > count
    ensures kind == Protected || kind == Activation ==> 3 * n >= 2 * count
    ensures kind == Protected ==> n >= 5 && 3 * n >= roster
  {
    match kind
    case Protected => Max(5, Max(CeilDiv(2 * count, 3), CeilDiv(roster, 3)))
    case Activation => Max(3, CeilDiv(2 * count, 3))
    case _ => Max(3, count / 2 + 1)
  }

  // -------------------------------------------------------------------- creation

  predicate ValidStudents(w: World, students: seq<User>) {
    students != [] && Distinct(students) && forall i :: 0 <= i < |students| ==> students[i] in w.roster
  }

  /** A bonus for the whole class needs the protected majority. */
  function EffectiveKind(w: World, kind: Kind, action: Action): Kind {
    if action.Bonus? && |action.students| == |w.roster| then Protected else kind
  }

  /** Who may vote: those a bonus is for, and the author of a grade import or an
      export, may not. */
  function Voters(w: World, u: User, action: Action): set<User> {
    match action
    case Bonus(students) =>
      if |students| == |w.roster| then Electorate(w) else Electorate(w) - (set s | s in students)
    case Gpa => Electorate(w) - {u}
    case Export => Electorate(w) - {u}
    case _ => Electorate(w)
  }

  function Create(w: World, u: User, kind: Kind, action: Action): Option<Proposal> {
    var effective, voters := EffectiveKind(w, kind, action), Voters(w, u, action);
    var required := Required(effective, |voters|, |w.roster|);
    if !Eligible(w, u) || (action.Bonus? && !ValidStudents(w, action.students)) || required > |voters| then None
    else
      var wait := if effective == Protected || effective == Activation then 2 * DAY else DAY;
      var window := if effective == Ordinary || effective == BonusKind then 2 * DAY else 3 * DAY;
      Some(Proposal(effective, action, u, map v | v in voters :: Seat(None, false), required,
                    w.now + wait, w.now + wait + window, Discussion, FingerprintOf(w), false))
  }

  /** A new proposal is put to eligible members only, never to those with an
      interest in it; it can reach its threshold, which is a strict majority of
      the voters (two thirds, and a third of the roster, where protected). */
  lemma CreatedProposal(w: World, u: User, kind: Kind, action: Action)
    requires Create(w, u, kind, action).Some?
    ensures var p := Create(w, u, kind, action).value;
      && p.voters.Keys <= Electorate(w)
      && |p.voters| < 2 * p.requiredYes && p.requiredYes <= |p.voters|
      && (action.Gpa? || action.Export? ==> u !in p.voters)
      && (action.Bonus? && |action.students| != |w.roster| ==> forall s :: s in action.students ==> s !in p.voters)
      && (action.Bonus? && |action.students| == |w.roster| ==>
            p.kind == Protected && 3 * p.requiredYes >= 2 * |p.voters| && 3 * p.requiredYes >= |w.roster|)
      && YesVotes(p.voters) == {}
  {
    var p := Create(w, u, kind, action).value;
    assert p.voters.Keys == Voters(w, u, action);
    assert |p.voters| == |p.voters.Keys|;
  }

  // -------------------------------------------------------------------- tallying

  function Choosers(voters: map<User, Seat>, choice: Option<Choice>): set<User> {
    set v | v in voters && voters[v].choice == choice
  }

  function YesVotes(voters: map<User, Seat>): set<User> {
    Choosers(voters, Some(Yes))
  }

  /** Everybody is counted once: yes, no, abstention or silence. */
  lemma TallyAddsUp(voters: map<User, Seat>)
    ensures |voters| == |YesVotes(voters)| + |Choosers(voters, Some(No))|
      + |Choosers(voters, Some(Abstain))| + |Choosers(voters, None)|
  {
    var y, n := YesVotes(voters), Choosers(voters, Some(No));
    var a, s := Choosers(voters, Some(Abstain)), Choosers(voters, None);
    forall v | v in voters
      ensures v in ((y + n) + a) + s
    {
      match voters[v].choice
      case None =>
      case Some(Yes) =>
      case Some(No) =>
      case Some(Abstain) =>
    }
    assert voters.Keys == ((y + n) + a) + s;
    assert y !! n && (y + n) !! a && ((y + n) + a) !! s;
    assert |voters| == |voters.Keys|;
  }

  predicate AllLocked(voters: map<User, Seat>) {
    forall v :: v in voters ==> voters[v].locked
  }

  // -------------------------------------------------------------------- requests

  predicate Archived(p: Proposal) {
    p.status == Applied || p.status == Rejected || p.status == Stale
  }

  predicate MayVote(p: Proposal, now: int, u: User) {
    u in p.voters && !p.voters[u].locked && p.status == Discussion && p.opensAt <= now < p.closesAt
  }

  function Vote(p: Proposal, now: int, u: User, choice: Choice, lock: bool): Proposal {
    if MayVote(p, now, u) then p.(voters := p.voters[u := Seat(Some(choice), lock)]) else p
  }

  /** Some actions are carried out elsewhere and may fail. */
  predicate Carried(action: Action, runs: bool) {
    runs || action.Motion? || action.Activate?
  }

  function Execute(p: Proposal, w: World, runs: bool): Proposal {
    if p.executed then p
    else if p.snapshot != FingerprintOf(w) then p.(status := Stale)
    else if !Carried(p.action, runs) then p
    else p.(status := Applied, executed := true)
  }

  predicate MayClose(p: Proposal, now: int) {
    now >= p.closesAt || AllLocked(p.voters)
  }

  function Close(p: Proposal, w: World, runs: bool): Proposal {
    if Archived(p) || !MayClose(p, w.now) then p
    else if |YesVotes(p.voters)| < p.requiredYes then p.(status := Rejected)
    else if (p.kind == Protected || p.kind == Activation) && w.now < p.closesAt + DAY then p.(status := Passed)
    else Execute(p, w, runs)
  }

  // --------------------------------------------------------------- the object

  class ProposalFile {
    const kind: Kind
    const action: Action
    const author: User
    const requiredYes: nat
    const snapshot: Fingerprint
    var voters: map<User, Seat>
    var opensAt: int
    var closesAt: int
    var status: Status
    var executed: bool

    constructor (p: Proposal)
      ensures Value() == p
    {
      kind, action, author, requiredYes, snapshot := p.kind, p.action, p.author, p.requiredYes, p.snapshot;
      voters, opensAt, closesAt, status, executed := p.voters, p.opensAt, p.closesAt, p.status, p.executed;
    }

    ghost function Value(): Proposal
      reads this
    {
      Proposal(kind, action, author, voters, requiredYes, opensAt, closesAt, status, snapshot, executed)
    }

    method CastVote(now: int, u: User, choice: Choice, lock: bool) returns (ok: bool)
      modifies this`voters
      ensures ok == MayVote(old(Value()), now, u)
      ensures Value() == Vote(old(Value()), now, u, choice, lock)
    {
      if u !in voters {
        return false;
      }
      if voters[u].locked || status != Discussion || now < opensAt || now >= closesAt {
        return false;
      }
      voters := voters[u := voters[u].(choice := Some(choice), locked := lock)];
      return true;
    }

    method ExecuteProposal(w: World, runs: bool)
      modifies this`status, this`executed
      ensures Value() == Execute(old(Value()), w, runs)
    {
      if executed {
        return;
      }
      if snapshot != FingerprintOf(w) {
        status := Stale;
        return;
      }
      if !runs && action != Motion && action != Activate {
        return;
      }
      status := Applied;
      executed := true;
    }

    method CloseVote(w: World, runs: bool)
      modifies this`status, this`executed
      ensures Value() == Close(old(Value()), w, runs)
    {
      if status == Applied || status == Rejected || status == Stale {
        return;
      }
      if w.now < closesAt && !AllLocked(voters) {
        return;
      }
      if |YesVotes(voters)| < requiredYes {
        status := Rejected;
        return;
      }
      if (kind == Protected || kind == Activation) && w.now < closesAt + DAY {
        status := Passed;
        return;
      }
      ExecuteProposal(w, runs);
    }
  }

  // ------------------------------------------------------------------ whole lives

  /** What happens to a proposal: votes, attempts to close it, the demo shortcut of
      moving all dates back, and anything else changing around it over time. */
  datatype Event =
    | Voted(u: User, choice: Choice, lock: bool)
    | Closed(runs: bool)
    | Advanced
    | Elsewhere(w: World)

  datatype Scene = Scene(w: World, p: Proposal)

  function MovedBack(members: map<User, Membership>): map<User, Membership> {
    map u | u in members :: members[u].(joinedAt := members[u].joinedAt - ADVANCE)
  }

  function Next(s: Scene, e: Event): Scene {
    match e
    case Voted(u, choice, lock) => s.(p := Vote(s.p, s.w.now, u, choice, lock))
    case Closed(runs) => s.(p := Close(s.p, s.w, runs))
    case Advanced =>
      Scene(s.w.(members := MovedBack(s.w.members)),
            s.p.(opensAt := s.p.opensAt - ADVANCE, closesAt := s.p.closesAt - ADVANCE))
    case Elsewhere(w) => if w.now >= s.w.now then s.(w := w) else s
  }

  function Run(s: Scene, es: seq<Event>): Scene {
    if es == [] then s else Next(Run(s, es[..|es| - 1]), es[|es| - 1])
  }

  /** Nothing but the votes, the dates and the status ever changes. */
  predicate SameTerms(p: Proposal, q: Proposal) {
    && q.kind == p.kind && q.action == p.action && q.author == p.author
    && q.voters.Keys == p.voters.Keys && q.requiredYes == p.requiredYes && q.snapshot == p.snapshot
  }

  predicate AppliedRightly(p: Proposal) {
    && (p.status == Applied <==> p.executed)
    && (p.executed ==> |YesVotes(p.voters)| >= p.requiredYes)
  }

  /** No vote can be cast any more. */
  predicate Sealed(s: Scene) {
    s.p.status != Discussion || MayClose(s.p, s.w.now)
  }

  lemma NextKeeps(s: Scene, e: Event)
    requires AppliedRightly(s.p)
    ensures var t := Next(s, e);
      && SameTerms(s.p, t.p) && AppliedRightly(t.p)
      && (Sealed(s) ==> Sealed(t) && t.p.voters == s.p.voters)
      && (Archived(s.p) ==> t.p.status == s.p.status && t.p.executed == s.p.executed)
  {
  }

  /** The terms of a proposal are frozen, and it is applied only with its votes. */
  lemma {:induction false} LifeKeepsTerms(s: Scene, es: seq<Event>)
    requires AppliedRightly(s.p)
    ensures SameTerms(s.p, Run(s, es).p) && AppliedRightly(Run(s, es).p)
    ensures Archived(s.p) ==> Run(s, es).p.status == s.p.status
    decreases |es|
  {
    if es != [] {
      LifeKeepsTerms(s, es[..|es| - 1]);
      NextKeeps(Run(s, es[..|es| - 1]), es[|es| - 1]);
    }
  }

  /** From the first close that is not too early on, the votes stay as they are:
      the tally at execution is the tally at passing. */
  lemma {:induction false} TallyIsFinal(s: Scene, es: seq<Event>)
    requires AppliedRightly(s.p) && Sealed(s)
    ensures Sealed(Run(s, es)) && Run(s, es).p.voters == s.p.voters
    decreases |es|
  {
    if es != [] {
      var init := es[..|es| - 1];
      TallyIsFinal(s, init);
      LifeKeepsTerms(s, init);
      NextKeeps(Run(s, init), es[|es| - 1]);
    }
  }

  /** An applied proposal had a strict majority of the electorate frozen at its
      creation: the yes votes outnumber all others together, silence included. */
  lemma {:induction false} AppliedHadMajority(w: World, u: User, kind: Kind, action: Action, es: seq<Event>)
    requires Create(w, u, kind, action).Some?
    requires Run(Scene(w, Create(w, u, kind, action).value), es).p.status == Applied
    ensures var p := Create(w, u, kind, action).value;
      var q := Run(Scene(w, p), es).p;
      && q.voters.Keys == p.voters.Keys && q.requiredYes == p.requiredYes
      && |YesVotes(q.voters)| >= q.requiredYes
      && |YesVotes(q.voters)| >
        |Choosers(q.voters, Some(No))| + |Choosers(q.voters, Some(Abstain))| + |Choosers(q.voters, None)|
  {
    var p := Create(w, u, kind, action).value;
    var q := Run(Scene(w, p), es).p;
    CreatedProposal(w, u, kind, action);
    LifeKeepsTerms(Scene(w, p), es);
    TallyAddsUp(q.voters);
    assert |q.voters| == |q.voters.Keys| == |p.voters.Keys| == |p.voters|;
  }

  /** A proposal is carried out only in a world with the roster, the scheme and the
      timeline it was created in, at most once, after the vote was closed with
      enough yes votes. */
  lemma {:induction false} ExecutedInSameWorld(w: World, u: User, kind: Kind, action: Action, es: seq<Event>, e: Event)
    requires Create(w, u, kind, action).Some?
    requires var s := Run(Scene(w, Create(w, u, kind, action).value), es);
      !s.p.executed && Next(s, e).p.executed
    ensures var s := Run(Scene(w, Create(w, u, kind, action).value), es);
      && e.Closed? && FingerprintOf(s.w) == FingerprintOf(w)
      && Sealed(s) && |YesVotes(s.p.voters)| >= s.p.requiredYes && Next(s, e).p.voters == s.p.voters
      && (s.p.kind == Protected || s.p.kind == Activation ==> s.w.now >= s.p.closesAt + DAY)
      && forall later :: Run(Next(s, e), later).p.status == Applied
  {
    var p := Create(w, u, kind, action).value;
    var s := Run(Scene(w, p), es);
    LifeKeepsTerms(Scene(w, p), es);
    NextKeeps(s, e);
    forall later
      ensures Run(Next(s, e), later).p.status == Applied
    {
      LifeKeepsTerms(Next(s, e), later);
    }
  }
}
