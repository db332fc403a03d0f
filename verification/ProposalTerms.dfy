/** The terms of a proposal and what is recorded of its vote: who may vote on it, when
    it can be made, from when until when it is open, which votes count, and what a close
    leads to (mock/src/governance.ts). */
module ProposalTerms {
  import opened GovernanceProposal
  import opened Options

  const ONE_DAY := 24 * 60 * 60 * 1000

  // -------------------------------------------------------------------- electorate

  /** An active, registered member of the class who joined the collective a full day ago
      and has not left it. */
  predicate Votes(w: World, u: User) {
    && u in w.roster && u in w.registered && u in w.members
    && !w.members[u].left && w.members[u].joinedAt + ONE_DAY <= w.now
  }

  /** Those who gain from a bonus for a part of the class, and the author of a grade
      import or an export. */
  predicate Interested(w: World, author: User, action: Action, u: User) {
    || (action.Bonus? && |action.students| != |w.roster| && u in action.students)
    || ((action.Gpa? || action.Export?) && u == author)
  }

  lemma WhoVotes(w: World, author: User, action: Action, u: User)
    ensures Eligible(w, u) <==> Votes(w, u)
    ensures u in Voters(w, author, action) <==> Votes(w, u) && !Interested(w, author, action, u)
  {
  }

  /** What a threshold has to satisfy. */
  predicate Enough(kind: Kind, count: nat, roster: nat, n: nat) {
    match kind
    case Protected => n >= 5 && 3 * n >= 2 * count && 3 * n >= roster
    case Activation => n >= 3 && 3 * n >= 2 * count
    case _ => n >= 3 && 2 * n > count
  }

  /** The threshold is the smallest number that is enough. */
  lemma RequiredIsLeast(kind: Kind, count: nat, roster: nat)
    ensures Enough(kind, count, roster, Required(kind, count, roster))
    ensures forall n: nat :: Enough(kind, count, roster, n) ==> Required(kind, count, roster) <= n
  {
  }

  // ---------------------------------------------------------------------- creation

  /** A bonus for the whole class is protected, anything else is of the kind asked for. */
  predicate IsKind(w: World, kind: Kind, action: Action, effective: Kind) {
    effective == if action.Bonus? && |action.students| == |w.roster| then Protected else kind
  }

  /** The students a bonus names are some members of the class, each named once. */
  predicate NamesMembers(w: World, action: Action) {
    action.Bonus? ==>
      && |action.students| > 0 && (forall s :: s in action.students ==> s in w.roster)
      && forall i, j :: 0 <= i < j < |action.students| ==> action.students[i] != action.students[j]
  }

  /** The terms of a new proposal. Protected matters and activation are open for votes
      after two days, everything else after one; ordinary matters and bonuses for two
      days, everything else for three. */
  ghost predicate NewTerms(w: World, author: User, kind: Kind, action: Action, p: Proposal) {
    && IsKind(w, kind, action, p.kind) && p.action == action && p.author == author
    && (forall u :: u in p.voters <==> Votes(w, u) && !Interested(w, author, action, u))
    && (forall u :: u in p.voters ==> p.voters[u] == Seat(None, false))
    && p.requiredYes == Required(p.kind, |p.voters|, |w.roster|)
    && p.opensAt == w.now + (if p.kind == Protected || p.kind == Activation then 2 * ONE_DAY else ONE_DAY)
    && p.closesAt == p.opensAt + (if p.kind == Ordinary || p.kind == BonusKind then 2 * ONE_DAY else 3 * ONE_DAY)
    && p.status == Discussion && !p.executed
    && p.snapshot.roster == w.roster && p.snapshot.scheme == w.scheme && p.snapshot.timeline == w.timeline
  }

  /** A proposal is made exactly when its author may vote in general, the students it
      names are members, and enough voters are left to reach its threshold. */
  lemma CreatedExactly(w: World, author: User, kind: Kind, action: Action)
    ensures Create(w, author, kind, action).Some? <==>
      && Votes(w, author) && NamesMembers(w, action)
      && Required(EffectiveKind(w, kind, action), |Voters(w, author, action)|, |w.roster|) <= |Voters(w, author, action)|
    ensures Create(w, author, kind, action).Some? ==>
      NewTerms(w, author, kind, action, Create(w, author, kind, action).value)
  {
    WhoVotes(w, author, action, author);
    if action.Bonus? {
      assert ValidStudents(w, action.students) <==> NamesMembers(w, action);
    }
    if Create(w, author, kind, action).Some? {
      var p := Create(w, author, kind, action).value;
      assert p.voters.Keys == Voters(w, author, action);
      assert |p.voters| == |p.voters.Keys|;
      forall u
        ensures u in p.voters <==> Votes(w, u) && !Interested(w, author, action, u)
      {
        WhoVotes(w, author, action, u);
      }
    }
  }

  // ------------------------------------------------------------------------ votes

  /** A vote counts from a seat that is not locked, while voting is open. */
  predicate Counts(p: Proposal, now: int, u: User) {
    && u in p.voters && !p.voters[u].locked && p.status == Discussion && p.opensAt <= now && now < p.closesAt
  }

  /** A vote that counts is recorded as it was cast, locked if asked for, for the one who
      cast it and nobody else; one that does not count changes nothing. */
  lemma VoteIsRecorded(p: Proposal, now: int, u: User, choice: Choice, lock: bool)
    ensures var q := Vote(p, now, u, choice, lock);
      if Counts(p, now, u) then
        && q.voters.Keys == p.voters.Keys && q.voters[u] == Seat(Some(choice), lock)
        && (forall v :: v in p.voters && v != u ==> q.voters[v] == p.voters[v])
        && q == p.(voters := q.voters)
      else q == p
  {
  }

  /** Event k is a vote of u for that choice that counts, and the last of u that does. */
  predicate LastVote(s: Scene, es: seq<Event>, k: nat, u: User, choice: Choice) {
    && k < |es| && es[k].Voted? && es[k].u == u && es[k].choice == choice
    && Counts(Run(s, es[..k]).p, Run(s, es[..k]).w.now, u)
    && forall j :: k < j < |es| && es[j].Voted? && es[j].u == u ==>
         !Counts(Run(s, es[..j]).p, Run(s, es[..j]).w.now, u)
  }

  lemma LastVoteStays(s: Scene, es: seq<Event>, e: Event, k: nat, u: User, choice: Choice)
    requires LastVote(s, es, k, u, choice)
    requires e.Voted? && e.u == u ==> !Counts(Run(s, es).p, Run(s, es).w.now, u)
    ensures LastVote(s, es + [e], k, u, choice)
  {
    var all := es + [e];
    assert all[..k] == es[..k];
    forall j | k < j < |all| && all[j].Voted? && all[j].u == u
      ensures !Counts(Run(s, all[..j]).p, Run(s, all[..j]).w.now, u)
    {
      assert j < |es| ==> all[..j] == es[..j] && all[j] == es[j];
      assert j == |es| ==> all[..j] == es;
    }
  }

  lemma SeatAfter(s: Scene, e: Event, u: User)
    requires u in s.p.voters
    ensures var t := Next(s, e);
      && u in t.p.voters
      && if e.Voted? && e.u == u && Counts(s.p, s.w.now, u) then t.p.voters[u] == Seat(Some(e.choice), e.lock)
         else t.p.voters[u] == s.p.voters[u]
  {
  }

  /** Whatever happens to a proposal on which nobody has voted yet, a voter's choice is
      that of the voter's last vote that counted. */
  lemma {:induction false} ChoiceWasCast(s: Scene, es: seq<Event>, u: User, choice: Choice)
    requires u in s.p.voters && s.p.voters[u].choice == None
    ensures u in Run(s, es).p.voters
    ensures Run(s, es).p.voters[u].choice == Some(choice) <==> exists k: nat :: LastVote(s, es, k, u, choice)
    decreases |es|
  {
    if es != [] {
      var n := |es| - 1;
      var init, e := es[..n], es[n];
      var t := Run(s, init);
      assert es == init + [e];
      ChoiceWasCast(s, init, u, choice);
      SeatAfter(t, e, u);
      if e.Voted? && e.u == u && Counts(t.p, t.w.now, u) {
        assert e.choice == choice ==> LastVote(s, es, n, u, choice);
      } else {
        if k: nat :| LastVote(s, init, k, u, choice) {
          LastVoteStays(s, init, e, k, u, choice);
        }
        if k: nat :| LastVote(s, es, k, u, choice) {
          LastVoteBefore(s, init, e, k, u, choice);
        }
      }
    }
  }

  lemma LastVoteBefore(s: Scene, es: seq<Event>, e: Event, k: nat, u: User, choice: Choice)
    requires LastVote(s, es + [e], k, u, choice)
    requires e.Voted? && e.u == u ==> !Counts(Run(s, es).p, Run(s, es).w.now, u)
    ensures LastVote(s, es, k, u, choice)
  {
    var all := es + [e];
    assert all[..|es|] == es;
    assert k < |es| ==> all[..k] == es[..k];
    forall j | k < j < |es| && es[j].Voted? && es[j].u == u
      ensures !Counts(Run(s, es[..j]).p, Run(s, es[..j]).w.now, u)
    {
      assert all[..j] == es[..j] && all[j] == es[j];
    }
  }

  // ------------------------------------------------------------------------ closing

  /** Voting is over: the time is up, or every voter has locked a choice. */
  predicate Over(p: Proposal, now: int) {
    now >= p.closesAt || forall u :: u in p.voters ==> p.voters[u].locked
  }

  /** What a close makes of a proposal. */
  ghost predicate Closes(p: Proposal, w: World, runs: bool, q: Proposal) {
    var yes := |set u | u in p.voters && p.voters[u].choice == Some(Yes)|;
    var waits := (p.kind == Protected || p.kind == Activation) && w.now < p.closesAt + ONE_DAY;
    var changed := p.snapshot.roster != w.roster || p.snapshot.scheme != w.scheme || p.snapshot.timeline != w.timeline;
    if p.status in {Applied, Rejected, Stale} || !Over(p, w.now) then q == p
    else if yes < p.requiredYes then q == p.(status := Rejected)
    else if waits then q == p.(status := Passed)
    else if changed then q == p.(status := Stale)
    else if runs || p.action == Motion || p.action == Activate then q == p.(status := Applied, executed := true)
    else q == p
  }

  /** Closing waits until voting is over, rejects without enough yes votes, lets
      protected matters and activation wait another day, drops what was decided about
      something that has changed since, and else carries it out. */
  lemma CloseDecides(p: Proposal, w: World, runs: bool)
    requires AppliedRightly(p)
    ensures Closes(p, w, runs, Close(p, w, runs))
  {
    assert YesVotes(p.voters) == set u | u in p.voters && p.voters[u].choice == Some(Yes);
  }

  // --------------------------------------------------------------------- the shortcut

  /** The world four days later. */
  function FourDaysLater(w: World): World {
    w.(now := w.now + 4 * ONE_DAY)
  }

  /** Moving all dates back by four days is as good as four days going by: the same
      members may vote, the same votes count and voting is over alike. */
  lemma AdvancingIsWaiting(s: Scene, u: User)
    ensures var t := Next(s, Advanced);
      && (Votes(t.w, u) <==> Votes(FourDaysLater(s.w), u))
      && (Counts(t.p, t.w.now, u) <==> Counts(s.p, FourDaysLater(s.w).now, u))
      && (Over(t.p, t.w.now) <==> Over(s.p, FourDaysLater(s.w).now))
      && t.p == s.p.(opensAt := t.p.opensAt, closesAt := t.p.closesAt) && t.w == s.w.(members := t.w.members)
  {
  }

  /** Voting and closing act on the proposal alone, at the time of the world they meet. */
  lemma VotingAndClosing(s: Scene, u: User, choice: Choice, lock: bool, runs: bool)
    requires AppliedRightly(s.p)
    ensures var t := Next(s, Voted(u, choice, lock));
      && t.w == s.w && t.p == s.p.(voters := t.p.voters)
      && (Counts(s.p, s.w.now, u) ==> t.p.voters == s.p.voters[u := Seat(Some(choice), lock)])
      && (!Counts(s.p, s.w.now, u) ==> t.p == s.p)
    ensures Next(s, Closed(runs)).w == s.w && Closes(s.p, s.w, runs, Next(s, Closed(runs)).p)
  {
    VoteIsRecorded(s.p, s.w.now, u, choice, lock);
    CloseDecides(s.p, s.w, runs);
  }

  /** Time never runs backwards, and nothing else but a vote, a close or the shortcut
      touches a proposal. */
  lemma ElsewhereLeavesProposal(s: Scene, w: World)
    ensures Next(s, Elsewhere(w)).p == s.p
    ensures Next(s, Elsewhere(w)).w == if w.now >= s.w.now then w else s.w
  {
  }
}
