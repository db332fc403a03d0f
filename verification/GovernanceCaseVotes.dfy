/** What a governance case records of each request, and where the opinions, ballots
    and rulings of a case come from. */
module GovernanceCaseVotes {
  import opened GovernanceCase
  import opened GovernanceCaseHistory
  import opened Options

  // ---------------------------------------------------------------- one request

  /** Seat i is the user's. */
  predicate SitsAt(seats: seq<Seat>, i: nat, u: User) {
    i < |seats| && seats[i].user == u
  }

  /** An opinion is taken from a seat that has not given one, on the current facts, in
      time, within the bounds and with a reason. */
  predicate TakesOpinion(c: Case, i: nat, r: Request)
    requires r.Submit?
  {
    && SitsAt(c.seats, i, r.user) && r.user != c.subject && c.status == Voting && c.seats[i].opinion.None?
    && r.version == c.round && (r.rejected || c.lowest <= r.score <= c.highest) && |r.reason| >= 4
  }

  /** A ballot is taken from a seat that has cast none, as an abstention or for an
      opinion that is there. */
  ghost predicate TakesBallot(c: Case, i: nat, r: Request)
    requires r.Cast?
  {
    && SitsAt(c.seats, i, r.user) && r.user != c.subject && c.status == Deliberating && c.seats[i].ballot.None?
    && (r.ballot.Abstain? || Held(c.seats, r.ballot.verdict))
  }

  /** The opinion that a request states. */
  function Stated(c: Case, r: Request): Opinion
    requires r.Submit?
  {
    Opinion(Verdict(r.rejected, if r.rejected then 0.0 else r.score, c.category, c.itemKey), r.reason)
  }

  /** Seat i is this now; the other seats keep their opinions and ballots, and any that
      were added have neither. */
  ghost predicate OnlySeat(before: seq<Seat>, after: seq<Seat>, i: nat, seat: Seat) {
    && i < |before| <= |after| && after[i] == seat
    && (forall j :: 0 <= j < |before| && j != i ==> after[j] == before[j])
    && forall j :: |before| <= j < |after| ==> after[j].opinion.None? && after[j].ballot.None?
  }

  lemma UniqueSeat(seats: seq<Seat>, i: nat, u: User)
    requires DistinctUsers(seats) && SitsAt(seats, i, u)
    ensures SeatOf(seats, u) == i
  {
  }

  /** What finishing a case does to its seats: it may add new ones. */
  lemma FinishSeats(c: Case, m: Meets)
    requires Sound(c)
    ensures var d := Finish(c, m).after;
      && |c.seats| <= |d.seats| && d.seats[..|c.seats|] == c.seats
      && (forall j :: |c.seats| <= j < |d.seats| ==> d.seats[j].opinion.None? && d.seats[j].ballot.None?)
      && d.subject == c.subject && d.category == c.category && d.itemKey == c.itemKey
      && d.lowest == c.lowest && d.highest == c.highest && d.round == c.round
  {
  }

  /** An opinion that is taken is recorded as it was stated, at the seat of the one who
      stated it and nowhere else, and then the case is decided as far as it can be; one
      that is not taken changes nothing. */
  lemma OpinionIsRecorded(c: Case, r: Request, i: nat)
    requires Sound(c) && r.Submit? && TakesOpinion(c, i, r)
    ensures OnlySeat(c.seats, Next(c, r).after.seats, i, Seat(r.user, Some(Stated(c, r)), c.seats[i].ballot))
    ensures var seats := c.seats[i := Seat(r.user, Some(Stated(c, r)), c.seats[i].ballot)];
      Sound(c.(seats := seats)) && Next(c, r) == Finish(c.(seats := seats), r.meets)
  {
    UniqueSeat(c.seats, i, r.user);
    SubmittedSound(c, r);
    assert Submitted(c, r) == c.(seats := c.seats[i := Seat(r.user, Some(Stated(c, r)), c.seats[i].ballot)]);
    FinishSeats(Submitted(c, r), r.meets);
    var d, e := Submitted(c, r).seats, Next(c, r).after.seats;
    assert forall j :: 0 <= j < |d| ==> e[j] == e[..|d|][j];
  }

  lemma OpinionIsRefused(c: Case, r: Request)
    requires Sound(c) && r.Submit? && forall i: nat :: !TakesOpinion(c, i, r)
    ensures Next(c, r) == Step(c, None)
  {
    var i := SeatOf(c.seats, r.user);
    if i >= 0 {
      assert !TakesOpinion(c, i, r);
    }
  }

  lemma BallotIsRecorded(c: Case, r: Request, i: nat)
    requires Sound(c) && r.Cast? && TakesBallot(c, i, r)
    ensures OnlySeat(c.seats, Next(c, r).after.seats, i, Seat(r.user, c.seats[i].opinion, Some(r.ballot)))
    ensures var seats := c.seats[i := Seat(r.user, c.seats[i].opinion, Some(r.ballot))];
      Sound(c.(seats := seats)) && Next(c, r) == Finish(c.(seats := seats), r.meets)
  {
    UniqueSeat(c.seats, i, r.user);
    HeldIsFound(c.seats, r.ballot);
    CastSound(c, r);
    assert CastIn(c, r) == c.(seats := c.seats[i := Seat(r.user, c.seats[i].opinion, Some(r.ballot))]);
    FinishSeats(CastIn(c, r), r.meets);
    var d, e := CastIn(c, r).seats, Next(c, r).after.seats;
    assert forall j :: 0 <= j < |d| ==> e[j] == e[..|d|][j];
  }

  lemma BallotIsRefused(c: Case, r: Request)
    requires Sound(c) && r.Cast? && forall i: nat :: !TakesBallot(c, i, r)
    ensures Next(c, r) == Step(c, None)
  {
    var i := SeatOf(c.seats, r.user);
    HeldIsFound(c.seats, r.ballot);
    if i >= 0 {
      assert !TakesBallot(c, i, r);
    }
  }

  /** A verdict that is held by some seat is one that may be voted for. */
  lemma HeldIsFound(seats: seq<Seat>, ballot: Ballot)
    ensures ballot.For? ==> (FirstWith(seats, ballot.verdict, |seats|).Some? <==> Held(seats, ballot.verdict))
  {
    if ballot.For? {
      FirstWithFacts(seats, ballot.verdict, |seats|);
      if FirstWith(seats, ballot.verdict, |seats|).Some? {
        var o := FirstWith(seats, ballot.verdict, |seats|).value;
        var i: nat :| i < |seats| && seats[i].opinion == Some(o);
        assert Holds(seats, i, ballot.verdict);
      }
    }
  }

  /** New facts are taken from the subject once, before the case is applied. */
  predicate TakesFacts(c: Case, r: Request)
    requires r.Comment?
  {
    c.status != Applied && r.user == c.subject && r.evidence && |r.body| >= 20 && c.round < 2
  }

  /** They void every opinion and ballot of the same seats and open the next round. */
  lemma FactsStartOver(c: Case, r: Request)
    requires r.Comment?
    ensures var s := Next(c, r);
      && s.ruling == None
      && if TakesFacts(c, r) then
           && |s.after.seats| == |c.seats|
           && (forall i :: 0 <= i < |c.seats| ==> s.after.seats[i] == Seat(c.seats[i].user, None, None))
           && s.after == c.(seats := s.after.seats, round := c.round + 1, status := Voting,
                            closesAt := r.now + 2 * 24 * 60 * 60 * 1000)
         else s.after == c
  {
  }

  /** Anyone on the panel, and the subject, may ask for the decision that is due. */
  lemma CloseFinishes(c: Case, r: Request)
    requires r.Close?
    ensures Next(c, r) ==
      if r.user == c.subject || exists i: nat :: SitsAt(c.seats, i, r.user) then Finish(c, r.meets) else Step(c, None)
  {
    assert Seated(c.seats, r.user) <==> exists i: nat :: SitsAt(c.seats, i, r.user) by {
      if i :| 0 <= i < |c.seats| && c.seats[i].user == r.user {
        assert SitsAt(c.seats, i, r.user);
      }
    }
  }

  // -------------------------------------------------------------- what votes decide

  /** The seats that hold a verdict, and those that vote for it. */
  function Holders(seats: seq<Seat>, v: Verdict): set<nat> {
    set i: nat | i < |seats| && Holds(seats, i, v)
  }

  function Backers(seats: seq<Seat>, v: Verdict): set<nat> {
    set i: nat | i < |seats| && seats[i].ballot == Some(For(v))
  }

  lemma {:induction false} HoldingCounts(seats: seq<Seat>, v: Verdict)
    ensures Holding(seats, v) == |Holders(seats, v)|
    decreases |seats|
  {
    if seats != [] {
      var n := |seats| - 1;
      HoldingCounts(seats[..n], v);
      assert Holders(seats, v) == Holders(seats[..n], v) + if Holds(seats, n, v) then {n} else {};
    }
  }

  lemma {:induction false} BackingCounts(seats: seq<Seat>, v: Verdict)
    ensures Backing(seats, v) == |Backers(seats, v)|
    decreases |seats|
  {
    if seats != [] {
      var n := |seats| - 1;
      BackingCounts(seats[..n], v);
      assert Backers(seats, v) == Backers(seats[..n], v) + if seats[n].ballot == Some(For(v)) then {n} else {};
    }
  }

  /** A ruling is carried out once: the case is applied, unless carrying it out fails. */
  ghost predicate RuledFor(c: Case, s: Step, v: Verdict, runs: bool) {
    && s.after.payload.Some? && s.after.payload.value.verdict == v
    && (exists i: nat :: i < |c.seats| && c.seats[i].opinion == s.after.payload)
    && s.after == c.(payload := s.after.payload, status := s.after.status, executed := s.after.executed)
    && if runs && !c.executed
       then s.ruling == s.after.payload && s.after.status == Applied && s.after.executed
       else s.ruling == None && s.after.status == c.status && s.after.executed == c.executed
  }

  /** Before a deliberation, a verdict held by enough seats is the ruling. */
  lemma OpinionsDecide(c: Case, m: Meets, v: Verdict)
    requires Sound(c) && c.status != Deliberating && AllSpoke(c.seats) && |Holders(c.seats, v)| >= |c.seats| / 2 + 1
    ensures RuledFor(c, Finish(c, m), v, m.runs)
  {
    HoldingCounts(c.seats, v);
    WinnerFacts(c.seats, c.requiredYes, |c.seats|);
    var i := SomeHolder(c.seats, v);
    var winner := Winner(c.seats, c.requiredYes, |c.seats|);
    if winner.Some? && winner.value.verdict != v {
      MajorityIsUnique(c.seats, v, winner.value.verdict);
    }
  }

  lemma SomeHolder(seats: seq<Seat>, v: Verdict) returns (i: nat)
    requires |Holders(seats, v)| > 0
    ensures Holds(seats, i, v)
  {
    i :| i in Holders(seats, v);
  }

  /** In a deliberation, a verdict that enough seats vote for is the ruling. */
  lemma BallotsDecide(c: Case, m: Meets, v: Verdict)
    requires Sound(c) && c.status == Deliberating && |Backers(c.seats, v)| >= |c.seats| / 2 + 1
    ensures RuledFor(c, Finish(c, m), v, m.runs)
  {
    BackingCounts(c.seats, v);
    ElectedOnceBacked(c.seats, c.requiredYes, v);
    ElectedFacts(c.seats, c.requiredYes, |c.seats|);
    var w := Elected(c.seats, c.requiredYes, |c.seats|).value;
    if w != v {
      MajorityIsUnique(c.seats, v, w);
    }
    FirstWithFacts(c.seats, v, |c.seats|);
    var i := SomeoneBacks(c.seats, v);
    var j: nat :| j < |c.seats| && Holds(c.seats, j, v);
  }

  predicate EveryBallot(seats: seq<Seat>) {
    forall s :: s in seats ==> s.ballot != None
  }

  /** Without such a verdict nothing is ruled: while opinions or ballots are missing the
      case waits, and once all ballots are cast it is blocked. */
  lemma NothingDecided(c: Case, m: Meets)
    requires Sound(c)
    requires !AllSpoke(c.seats) || (c.status == Deliberating && forall v :: |Backers(c.seats, v)| < |c.seats| / 2 + 1)
    ensures Finish(c, m) ==
      Step(if AllSpoke(c.seats) && EveryBallot(c.seats) then c.(status := Blocked) else c, None)
  {
    assert EveryBallot(c.seats) <==> AllVoted(c.seats);
    if AllSpoke(c.seats) {
      ElectedFacts(c.seats, c.requiredYes, |c.seats|);
      var elected := Elected(c.seats, c.requiredYes, |c.seats|);
      if elected.Some? {
        BackingCounts(c.seats, elected.value);
      }
    }
  }

  /** Disagreement of a full panel opens a deliberation of two days. */
  lemma DeliberationOpens(c: Case, m: Meets)
    requires Sound(c) && c.status != Deliberating && AllSpoke(c.seats) && |c.seats| == MAX_SEATS
    requires forall v :: |Holders(c.seats, v)| < 3
    ensures Finish(c, m) ==
      Step(c.(status := Deliberating, closesAt := m.now + 2 * 24 * 60 * 60 * 1000), None)
  {
    WinnerFacts(c.seats, c.requiredYes, |c.seats|);
    var winner := Winner(c.seats, c.requiredYes, |c.seats|);
    if winner.Some? {
      HoldingCounts(c.seats, winner.value.verdict);
    }
  }

  /** A smaller panel that disagrees is joined by the first reviewers drawn, of those
      who are free to join, if five more are left over; otherwise it is blocked. */
  lemma PanelIsJoined(c: Case, m: Meets)
    requires Sound(c) && c.status != Deliberating && AllSpoke(c.seats) && |c.seats| < MAX_SEATS
    requires forall v :: |Holders(c.seats, v)| < |c.seats| / 2 + 1
    ensures var free, size := Free(m.reviewers, c), if |c.seats| == 2 then 3 else 5;
      Finish(c, m) ==
        if |free| < size - |c.seats| + 5 then Step(c.(status := Blocked), None)
        else
          Step(c.(seats := c.seats + NewSeats(free[..size - |c.seats|]), requiredYes := size / 2 + 1), None)
  {
    WinnerFacts(c.seats, c.requiredYes, |c.seats|);
    var winner := Winner(c.seats, c.requiredYes, |c.seats|);
    if winner.Some? {
      HoldingCounts(c.seats, winner.value.verdict);
    }
    PoolIsFree(m.reviewers, c);
  }

  /** The reviewers who hold no seat and are not the subject, in the order drawn. */
  function Free(reviewers: seq<User>, c: Case): seq<User> {
    if reviewers == [] then []
    else
      (if reviewers[0] == c.subject || exists i :: 0 <= i < |c.seats| && c.seats[i].user == reviewers[0] then []
       else [reviewers[0]]) + Free(reviewers[1..], c)
  }

  lemma {:induction false} FreeSnoc(reviewers: seq<User>, u: User, c: Case)
    ensures Free(reviewers + [u], c) == Free(reviewers, c) + Free([u], c)
  {
    if reviewers == [] {
      assert [] + [u] == [u];
    } else {
      assert (reviewers + [u])[1..] == reviewers[1..] + [u];
      FreeSnoc(reviewers[1..], u, c);
    }
  }

  lemma {:induction false} PoolIsFree(reviewers: seq<User>, c: Case)
    ensures Pool(reviewers, c.seats, c.subject) == Free(reviewers, c)
    decreases |reviewers|
  {
    if reviewers != [] {
      var n := |reviewers| - 1;
      PoolIsFree(reviewers[..n], c);
      FreeSnoc(reviewers[..n], reviewers[n], c);
      assert reviewers[..n] + [reviewers[n]] == reviewers;
    }
  }

  // ---------------------------------------------------------------- all sequences

  /** No new facts were taken from the n-th request on. */
  predicate SameRoundSince(c: Case, rs: seq<Request>, n: nat) {
    forall k :: n <= k < |rs| && rs[k].Comment? ==> !TakesFacts(Run(c, rs[..k]), rs[k])
  }

  /** Request k stated that opinion from the seat of that user, it was taken, and no new
      facts came after it. */
  ghost predicate StatedAt(c: Case, rs: seq<Request>, k: nat, u: User, o: Opinion) {
    && k < |rs| && rs[k].Submit? && rs[k].user == u
    && (exists i: nat :: TakesOpinion(Run(c, rs[..k]), i, rs[k]))
    && o == Stated(c, rs[k])
    && SameRoundSince(c, rs, k + 1)
  }

  /** Where an opinion comes from: it was stated in the current round, or the case was
      opened with it and is still in its first round. */
  ghost predicate OpinionStems(c: Case, rs: seq<Request>, u: User, o: Opinion) {
    || (exists k: nat :: StatedAt(c, rs, k, u, o))
    || (SameRoundSince(c, rs, 0) && exists i: nat :: i < |c.seats| && c.seats[i].user == u && c.seats[i].opinion == Some(o))
  }

  ghost predicate CastAt(c: Case, rs: seq<Request>, k: nat, u: User, b: Ballot) {
    && k < |rs| && rs[k].Cast? && rs[k].user == u && rs[k].ballot == b
    && (exists i: nat :: TakesBallot(Run(c, rs[..k]), i, rs[k]))
    && SameRoundSince(c, rs, k + 1)
  }

  ghost predicate BallotStems(c: Case, rs: seq<Request>, u: User, b: Ballot) {
    || (exists k: nat :: CastAt(c, rs, k, u, b))
    || (SameRoundSince(c, rs, 0) && exists i: nat :: i < |c.seats| && c.seats[i].user == u && c.seats[i].ballot == Some(b))
  }

  /** One more request that brings no new facts changes nothing about where opinions
      and ballots come from. */
  lemma StemsStay(c: Case, rs: seq<Request>, r: Request, u: User, o: Opinion, b: Ballot)
    requires r.Comment? ==> !TakesFacts(Run(c, rs), r)
    ensures OpinionStems(c, rs, u, o) ==> OpinionStems(c, rs + [r], u, o)
    ensures BallotStems(c, rs, u, b) ==> BallotStems(c, rs + [r], u, b)
  {
    var all := rs + [r];
    forall n | 0 <= n <= |rs| && SameRoundSince(c, rs, n)
      ensures SameRoundSince(c, all, n)
    {
      forall k | n <= k < |all| && all[k].Comment?
        ensures !TakesFacts(Run(c, all[..k]), all[k])
      {
        assert k < |rs| ==> all[..k] == rs[..k];
        assert k == |rs| ==> all[..k] == rs;
      }
    }
    if k: nat :| StatedAt(c, rs, k, u, o) {
      assert all[..k] == rs[..k];
      assert StatedAt(c, all, k, u, o);
    }
    if k: nat :| CastAt(c, rs, k, u, b) {
      assert all[..k] == rs[..k];
      assert CastAt(c, all, k, u, b);
    }
  }

  /** What a case is about. */
  predicate SameMatter(c: Case, d: Case) {
    && d.subject == c.subject && d.category == c.category && d.itemKey == c.itemKey
    && d.lowest == c.lowest && d.highest == c.highest
  }

  lemma NextMatter(c: Case, r: Request)
    requires Sound(c)
    ensures SameMatter(c, Next(c, r).after)
  {
    match r
    case Submit(_, _, _, _, _, m) =>
      if MaySubmit(c, r) {
        SubmittedSound(c, r);
        FinishSeats(Submitted(c, r), m);
      }
    case Cast(_, _, m) =>
      if MayCast(c, r) {
        CastSound(c, r);
        FinishSeats(CastIn(c, r), m);
      }
    case Comment(_, _, _, _) => FactsStartOver(c, r);
    case Close(_, m) => FinishSeats(c, m);
  }

  /** It never changes. */
  lemma {:induction false} MatterStays(c: Case, rs: seq<Request>)
    requires Sound(c) && forall k :: 0 <= k < |rs| ==> DistinctReviewers(rs[k])
    ensures SameMatter(c, Run(c, rs))
    decreases |rs|
  {
    if rs != [] {
      MatterStays(c, rs[..|rs| - 1]);
      CaseInvariant(c, rs[..|rs| - 1]);
      NextMatter(Run(c, rs[..|rs| - 1]), rs[|rs| - 1]);
    }
  }

  /** What one request does to the opinion and ballot of one seat of the panel. */
  lemma SeatStep(c: Case, r: Request, j: nat)
    requires Sound(c) && j < |Next(c, r).after.seats|
    ensures var s := Next(c, r).after.seats[j];
      && (s.opinion.Some? ==>
            || (r.Submit? && TakesOpinion(c, j, r) && s.user == r.user && s.opinion.value == Stated(c, r))
            || (j < |c.seats| && s.user == c.seats[j].user && s.opinion == c.seats[j].opinion
                && (r.Comment? ==> !TakesFacts(c, r))))
      && (s.ballot.Some? ==>
            || (r.Cast? && TakesBallot(c, j, r) && s.user == r.user && s.ballot.value == r.ballot)
            || (j < |c.seats| && s.user == c.seats[j].user && s.ballot == c.seats[j].ballot
                && (r.Comment? ==> !TakesFacts(c, r))))
  {
    match r
    case Submit(_, _, _, _, _, _) =>
      if i: nat :| TakesOpinion(c, i, r) {
        OpinionIsRecorded(c, r, i);
      } else {
        OpinionIsRefused(c, r);
      }
    case Cast(_, _, _) =>
      if i: nat :| TakesBallot(c, i, r) {
        BallotIsRecorded(c, r, i);
      } else {
        BallotIsRefused(c, r);
      }
    case Comment(_, _, _, _) => FactsStartOver(c, r);
    case Close(_, m) =>
      FinishSeats(c, m);
      assert j < |c.seats| ==> Next(c, r).after.seats[..|c.seats|][j] == Next(c, r).after.seats[j];
  }

  /** After any requests, every opinion at a seat was stated by its user in an accepted
      request of the current round, and every ballot was cast by its user, unless the
      case was opened with them and no new facts have come. */
  lemma {:induction false} VotesWereCast(c: Case, rs: seq<Request>, j: nat)
    requires Sound(c) && (forall k :: 0 <= k < |rs| ==> DistinctReviewers(rs[k])) && j < |Run(c, rs).seats|
    ensures var s := Run(c, rs).seats[j];
      && (s.opinion.Some? ==> OpinionStems(c, rs, s.user, s.opinion.value))
      && (s.ballot.Some? ==> BallotStems(c, rs, s.user, s.ballot.value))
    decreases |rs|
  {
    if rs == [] {
      assert SameRoundSince(c, rs, 0);
    } else {
      var n := |rs| - 1;
      var init, r := rs[..n], rs[n];
      var before := Run(c, init);
      CaseInvariant(c, init);
      MatterStays(c, init);
      SeatStep(before, r, j);
      assert rs == init + [r];
      var s := Run(c, rs).seats[j];
      if j < |before.seats| {
        VotesWereCast(c, init, j);
        if s.opinion.Some? && s.opinion == before.seats[j].opinion && (r.Comment? ==> !TakesFacts(before, r)) {
          StemsStay(c, init, r, s.user, s.opinion.value, Abstain);
        }
        if s.ballot.Some? && s.ballot == before.seats[j].ballot && (r.Comment? ==> !TakesFacts(before, r)) {
          StemsStay(c, init, r, s.user, Opinion(Verdict(true, 0.0, "", ""), ""), s.ballot.value);
        }
      }
      assert SameRoundSince(c, rs, n + 1);
      if s.opinion.Some? && r.Submit? && TakesOpinion(before, j, r) && s.opinion.value == Stated(before, r) {
        assert StatedAt(c, rs, n, s.user, s.opinion.value);
      }
      if s.ballot.Some? && r.Cast? && TakesBallot(before, j, r) && s.ballot.value == r.ballot {
        assert CastAt(c, rs, n, s.user, s.ballot.value);
      }
    }
  }

  /** Who stands behind a verdict: the users whose current opinion it is, or who vote
      for it. */
  function UsersAt(seats: seq<Seat>, at: set<nat>): (us: set<User>)
    requires forall i :: i in at ==> i < |seats|
  {
    set i | i in at :: seats[i].user
  }

  lemma {:induction false} AsManyUsers(seats: seq<Seat>, at: set<nat>)
    requires DistinctUsers(seats) && forall i :: i in at ==> i < |seats|
    ensures |UsersAt(seats, at)| == |at|
    decreases |at|
  {
    if at != {} {
      var i := SomeMember(at);
      AsManyUsers(seats, at - {i});
      assert UsersAt(seats, at) == UsersAt(seats, at - {i}) + {seats[i].user};
      assert seats[i].user !in UsersAt(seats, at - {i});
    }
  }

  /** A strict majority of different users stated that verdict in this round. */
  ghost predicate StatedByMajority(c: Case, rs: seq<Request>, v: Verdict, size: nat) {
    exists us: set<User> {:trigger |us|} :: |us| >= size / 2 + 1
      && forall u :: u in us ==> exists o: Opinion :: o.verdict == v && OpinionStems(c, rs, u, o)
  }

  ghost predicate VotedByMajority(c: Case, rs: seq<Request>, v: Verdict, size: nat) {
    exists us: set<User> {:trigger |us|} :: |us| >= size / 2 + 1
      && forall u :: u in us ==> BallotStems(c, rs, u, For(v))
  }

  lemma HoldersStated(c: Case, rs: seq<Request>, v: Verdict)
    requires Sound(c) && forall k :: 0 <= k < |rs| ==> DistinctReviewers(rs[k])
    requires |Holders(Run(c, rs).seats, v)| >= |Run(c, rs).seats| / 2 + 1
    ensures StatedByMajority(c, rs, v, |Run(c, rs).seats|)
  {
    var seats := Run(c, rs).seats;
    CaseInvariant(c, rs);
    var us := UsersAt(seats, Holders(seats, v));
    AsManyUsers(seats, Holders(seats, v));
    forall u | u in us
      ensures exists o: Opinion :: o.verdict == v && OpinionStems(c, rs, u, o)
    {
      var i :| i in Holders(seats, v) && seats[i].user == u;
      VotesWereCast(c, rs, i);
      assert seats[i].opinion.value.verdict == v;
    }
    assert |us| >= |seats| / 2 + 1;
  }

  lemma BackersVoted(c: Case, rs: seq<Request>, v: Verdict)
    requires Sound(c) && forall k :: 0 <= k < |rs| ==> DistinctReviewers(rs[k])
    requires |Backers(Run(c, rs).seats, v)| >= |Run(c, rs).seats| / 2 + 1
    ensures VotedByMajority(c, rs, v, |Run(c, rs).seats|)
  {
    var seats := Run(c, rs).seats;
    CaseInvariant(c, rs);
    var us := UsersAt(seats, Backers(seats, v));
    AsManyUsers(seats, Backers(seats, v));
    forall u | u in us
      ensures BallotStems(c, rs, u, For(v))
    {
      var i :| i in Backers(seats, v) && seats[i].user == u;
      VotesWereCast(c, rs, i);
    }
    assert |us| >= |seats| / 2 + 1;
  }

  /** Every ruling is an opinion that somebody on the panel stated in an accepted request
      of the current round; and a strict majority of the panel, all of them different
      users, either stated the same verdict in this round or voted for it. */
  lemma {:induction false} RulingWasStated(c: Case, rs: seq<Request>) returns (u: User)
    requires Sound(c) && (forall k :: 0 <= k < |rs| ==> DistinctReviewers(rs[k])) && rs != []
    requires Next(Run(c, rs[..|rs| - 1]), rs[|rs| - 1]).ruling.Some?
    ensures var o := Next(Run(c, rs[..|rs| - 1]), rs[|rs| - 1]).ruling.value;
      && OpinionStems(c, rs, u, o)
      && (StatedByMajority(c, rs, o.verdict, |Run(c, rs).seats|) || VotedByMajority(c, rs, o.verdict, |Run(c, rs).seats|))
  {
    var init, r := rs[..|rs| - 1], rs[|rs| - 1];
    var o, seats := Next(Run(c, init), r).ruling.value, Run(c, rs).seats;
    RulingHasMajority(c, init, r);
    CaseInvariant(c, rs);
    var i: nat :| i < |seats| && seats[i].opinion == Some(o);
    u := seats[i].user;
    VotesWereCast(c, rs, i);
    HoldingCounts(seats, o.verdict);
    BackingCounts(seats, o.verdict);
    if Holding(seats, o.verdict) >= Run(c, rs).requiredYes {
      HoldersStated(c, rs, o.verdict);
    } else {
      BackersVoted(c, rs, o.verdict);
    }
  }

  /** What is stated first in a new case, and within its bounds, is its ruling as soon as
      the second seat states the same; until then nothing is decided. */
  lemma TwoAgree(subject: User, category: string, itemKey: string, lowest: real, highest: real, a: User, b: User,
                 now: int, score: real, reason: string, other: string, m: Meets)
    requires a != b && a != subject && b != subject && lowest <= score <= highest && |reason| >= 4 && |other| >= 4
    requires m.runs
    ensures var c := OpenedCase(subject, category, itemKey, lowest, highest, Seat(a, None, None), Seat(b, None, None), now);
      var one := Next(c, Submit(a, 1, false, score, reason, m));
      var two := Next(one.after, Submit(b, 1, false, score, other, m));
      && one.ruling == None && one.after.status == Voting && c.closesAt == now + 2 * 24 * 60 * 60 * 1000
      && two.ruling == Some(Opinion(Verdict(false, score, category, itemKey), reason))
      && two.after.status == Applied
  {
    var c := OpenedCase(subject, category, itemKey, lowest, highest, Seat(a, None, None), Seat(b, None, None), now);
    var r := Submit(a, 1, false, score, reason, m);
    var q := Submit(b, 1, false, score, other, m);
    assert Sound(c);
    UniqueSeat(c.seats, 0, a);
    UniqueSeat(c.seats, 1, b);
    var verdict := Verdict(false, score, category, itemKey);
    var one := Next(c, r).after;
    assert one.seats == [Seat(a, Some(Opinion(verdict, reason)), None), Seat(b, None, None)];
    UniqueSeat(one.seats, 1, b);
    var d := Submitted(one, q);
    assert d.seats == [Seat(a, Some(Opinion(verdict, reason)), None), Seat(b, Some(Opinion(verdict, other)), None)];
    assert Holders(d.seats, verdict) == {0, 1};
    HoldingCounts(d.seats, verdict);
    assert Winner(d.seats, 2, 0) == None && Winner(d.seats, 2, 1) == d.seats[0].opinion;
  }
}
