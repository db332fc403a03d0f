/** What holds of a governance case after any sequence of requests. */
module GovernanceCaseHistory {
  import opened GovernanceCase
  import opened Options

  // ------------------------------------------------------------------ majorities

  predicate Holds(seats: seq<Seat>, i: nat, v: Verdict) {
    i < |seats| && seats[i].opinion.Some? && seats[i].opinion.value.verdict == v
  }

  /** Some seat's current opinion has that verdict. */
  predicate Held(seats: seq<Seat>, v: Verdict) {
    exists i: nat :: i < |seats| && Holds(seats, i, v)
  }

  lemma {:induction false} HoldingsAreDisjoint(seats: seq<Seat>, v: Verdict, w: Verdict)
    requires v != w
    ensures Holding(seats, v) + Holding(seats, w) <= |seats|
    decreases |seats|
  {
    if seats != [] {
      HoldingsAreDisjoint(seats[..|seats| - 1], v, w);
    }
  }

  lemma {:induction false} BackingsAreDisjoint(seats: seq<Seat>, v: Verdict, w: Verdict)
    requires v != w
    ensures Backing(seats, v) + Backing(seats, w) <= |seats|
    decreases |seats|
  {
    if seats != [] {
      BackingsAreDisjoint(seats[..|seats| - 1], v, w);
    }
  }

  lemma {:induction false} WinnerFacts(seats: seq<Seat>, need: nat, n: nat)
    requires n <= |seats|
    ensures match Winner(seats, need, n)
      case Some(o) => Holding(seats, o.verdict) >= need && exists i: nat :: i < |seats| && seats[i].opinion == Some(o)
      case None => forall i: nat :: i < n && seats[i].opinion.Some? ==>
        Holding(seats, seats[i].opinion.value.verdict) < need
  {
    if n > 0 {
      WinnerFacts(seats, need, n - 1);
    }
  }

  lemma {:induction false} ElectedFacts(seats: seq<Seat>, need: nat, n: nat)
    requires n <= |seats|
    ensures match Elected(seats, need, n)
      case Some(v) => Backing(seats, v) >= need && exists i: nat :: i < |seats| && seats[i].ballot == Some(For(v))
      case None => forall i: nat, v :: i < n && seats[i].ballot == Some(For(v)) ==> Backing(seats, v) < need
  {
    if n > 0 {
      ElectedFacts(seats, need, n - 1);
    }
  }

  lemma {:induction false} FirstWithFacts(seats: seq<Seat>, v: Verdict, n: nat)
    requires n <= |seats|
    ensures match FirstWith(seats, v, n)
      case Some(o) => o.verdict == v && exists i: nat :: i < |seats| && seats[i].opinion == Some(o)
      case None => forall i: nat :: i < n ==> !Holds(seats, i, v)
  {
    if n > 0 {
      FirstWithFacts(seats, v, n - 1);
    }
  }

  /** Two verdicts never both have a majority, neither of opinions nor of ballots. */
  lemma {:induction false} MajorityIsUnique(seats: seq<Seat>, v: Verdict, w: Verdict)
    requires v != w
    ensures Holding(seats, v) < |seats| / 2 + 1 || Holding(seats, w) < |seats| / 2 + 1
    ensures Backing(seats, v) < |seats| / 2 + 1 || Backing(seats, w) < |seats| / 2 + 1
  {
    HoldingsAreDisjoint(seats, v, w);
    BackingsAreDisjoint(seats, v, w);
  }

  // ------------------------------------------------------------------ the invariant

  predicate DistinctUsers(seats: seq<Seat>) {
    forall i, j :: 0 <= i < j < |seats| ==> seats[i].user != seats[j].user
  }

  /** Ballots are cast by full panels only, and name current opinions. */
  ghost predicate BallotsSound(seats: seq<Seat>) {
    forall i: nat :: i < |seats| && seats[i].ballot.Some? ==>
      && |seats| == MAX_SEATS && AllSpoke(seats)
      && (seats[i].ballot.value.For? ==> Held(seats, seats[i].ballot.value.verdict))
  }

  predicate PanelSound(c: Case) {
    && (|c.seats| == 2 || |c.seats| == 3 || |c.seats| == 5)
    && c.requiredYes == |c.seats| / 2 + 1
    && DistinctUsers(c.seats) && !Seated(c.seats, c.subject)
  }

  ghost predicate Sound(c: Case) {
    && PanelSound(c)
    && BallotsSound(c.seats)
    && 1 <= c.round <= MAX_ROUND
    && (c.status == Deliberating ==> |c.seats| == MAX_SEATS && AllSpoke(c.seats))
    && (c.status == Applied ==>
          && c.executed && AllSpoke(c.seats)
          && (|c.seats| == MAX_SEATS || Winner(c.seats, c.requiredYes, |c.seats|).Some?))
  }

  /** Reviewers who may be seated: all different, none seated, not the subject. */
  predicate Available(pool: seq<User>, seats: seq<Seat>, subject: User) {
    && (forall i :: 0 <= i < |pool| ==> pool[i] != subject && !Seated(seats, pool[i]))
    && Distinct(pool)
  }

  lemma {:induction false} PoolIsAvailable(reviewers: seq<User>, seats: seq<Seat>, subject: User)
    requires Distinct(reviewers)
    ensures Available(Pool(reviewers, seats, subject), seats, subject)
    ensures forall u :: u in Pool(reviewers, seats, subject) ==> u in reviewers
    decreases |reviewers|
  {
    if reviewers != [] {
      var init := reviewers[..|reviewers| - 1];
      PoolIsAvailable(init, seats, subject);
      var u, before := reviewers[|reviewers| - 1], Pool(init, seats, subject);
      assert u !in init;
      assert forall i :: 0 <= i < |before| ==> before[i] in before;
    }
  }

  predicate DistinctReviewers(r: Request) {
    !r.Comment? ==> Distinct(r.meets.reviewers)
  }

  lemma ExpandSound(c: Case, reviewers: seq<User>)
    requires Sound(c) && |c.seats| < MAX_SEATS && c.status != Applied
    requires Distinct(reviewers)
    ensures Sound(Expand(c, reviewers))
  {
    PoolIsAvailable(reviewers, c.seats, c.subject);
    var e := Expand(c, reviewers);
    var pool := Pool(reviewers, c.seats, c.subject);
    assert forall i: nat :: i < |c.seats| ==> c.seats[i].ballot.None? && e.seats[i] == c.seats[i];
    if e.status != Blocked || |e.seats| > |c.seats| {
      JoinSound(c.seats, pool[..|e.seats| - |c.seats|], c.subject);
    }
  }

  lemma JoinSound(seats: seq<Seat>, users: seq<User>, subject: User)
    requires DistinctUsers(seats) && !Seated(seats, subject) && Available(users, seats, subject)
    ensures DistinctUsers(seats + NewSeats(users)) && !Seated(seats + NewSeats(users), subject)
  {
    var all := seats + NewSeats(users);
    var n := |seats|;
    forall k | n <= k < |all|
      ensures all[k].user == users[k - n] && !Seated(seats, all[k].user) && all[k].user != subject
    {
      var u := users[k - n];
      assert all[k] == NewSeats(users)[k - n];
      assert u != subject && !Seated(seats, u);
    }
    forall i, j | 0 <= i < j < |all|
      ensures all[i].user != all[j].user
    {
      if i < n <= j {
        assert !Seated(seats, all[j].user);
        assert seats[i].user != all[j].user;
      }
    }
  }

  lemma DeliberationSound(c: Case, m: Meets)
    requires Sound(c) && c.status == Deliberating
    ensures Sound(Finish(c, m).after)
  {
  }

  lemma AgreementSound(c: Case, m: Meets)
    requires Sound(c) && c.status != Deliberating && AllSpoke(c.seats)
    requires |c.seats| == MAX_SEATS || Winner(c.seats, c.requiredYes, |c.seats|).Some?
    ensures Sound(Finish(c, m).after)
  {
    WinnerFacts(c.seats, c.requiredYes, |c.seats|);
  }

  lemma FinishSound(c: Case, m: Meets)
    requires Sound(c)
    requires Distinct(m.reviewers)
    ensures Sound(Finish(c, m).after)
  {
    if AllSpoke(c.seats) {
      if c.status == Deliberating {
        DeliberationSound(c, m);
      } else if Winner(c.seats, c.requiredYes, |c.seats|).None? && |c.seats| < MAX_SEATS {
        ExpandSound(c, m.reviewers);
      } else {
        AgreementSound(c, m);
      }
    }
  }

  lemma SubmittedSound(c: Case, r: Request)
    requires Sound(c) && r.Submit? && MaySubmit(c, r)
    ensures Sound(Submitted(c, r))
  {
    var d := Submitted(c, r);
    var i := SeatOf(c.seats, r.user);
    assert !AllSpoke(c.seats);
    assert forall k: nat :: k < |c.seats| ==> c.seats[k].ballot.None?;
    assert forall k: nat :: k < |c.seats| ==> d.seats[k].user == c.seats[k].user && d.seats[k].ballot.None?;
  }

  lemma CastSound(c: Case, r: Request)
    requires Sound(c) && r.Cast? && MayCast(c, r)
    ensures Sound(CastIn(c, r))
  {
    var d := CastIn(c, r);
    assert forall k: nat :: k < |c.seats| ==>
      d.seats[k].user == c.seats[k].user && d.seats[k].opinion == c.seats[k].opinion;
    if r.ballot.For? {
      FirstWithFacts(c.seats, r.ballot.verdict, |c.seats|);
      var o := FirstWith(c.seats, r.ballot.verdict, |c.seats|).value;
      var j: nat :| j < |c.seats| && c.seats[j].opinion == Some(o);
      assert Holds(d.seats, j, r.ballot.verdict);
    }
    forall k: nat | k < |d.seats| && d.seats[k].ballot.Some? && d.seats[k].ballot.value.For?
      ensures Held(d.seats, d.seats[k].ballot.value.verdict)
    {
      var v := d.seats[k].ballot.value.verdict;
      if k != SeatOf(c.seats, r.user) {
        var j: nat :| j < |c.seats| && Holds(c.seats, j, v);
        assert Holds(d.seats, j, v);
      }
    }
  }

  lemma ReopenedSound(c: Case, now: int)
    requires Sound(c) && c.round < MAX_ROUND
    ensures Sound(Reopened(c, now))
  {
    var d := Reopened(c, now);
    assert forall k: nat :: k < |c.seats| ==> d.seats[k].user == c.seats[k].user;
  }

  /** Every request keeps the panel, the ballots and the rounds sound. */
  lemma NextSound(c: Case, r: Request)
    requires Sound(c) && DistinctReviewers(r)
    ensures Sound(Next(c, r).after)
  {
    match r
    case Submit(_, _, _, _, _, m) =>
      if MaySubmit(c, r) {
        SubmittedSound(c, r);
        FinishSound(Submitted(c, r), m);
      }
    case Cast(_, _, m) =>
      if MayCast(c, r) {
        CastSound(c, r);
        FinishSound(CastIn(c, r), m);
      }
    case Comment(_, _, _, now) =>
      if MayComment(c, r) {
        ReopenedSound(c, now);
      }
    case Close(u, m) =>
      if MayRead(c, u) {
        FinishSound(c, m);
      }
  }

  // -------------------------------------------------------------------- rulings

  /** A majority of the seats stands behind a ruling: by their opinions, or by
      their ballots for one of the opinions; and no other verdict has one. */
  ghost predicate Backed(c: Case, o: Opinion) {
    && (exists i: nat :: i < |c.seats| && c.seats[i].opinion == Some(o))
    && ((Holding(c.seats, o.verdict) >= c.requiredYes
         && forall w :: w != o.verdict ==> Holding(c.seats, w) < c.requiredYes)
        || (Backing(c.seats, o.verdict) >= c.requiredYes
            && forall w :: w != o.verdict ==> Backing(c.seats, w) < c.requiredYes))
  }

  lemma FinishRules(c: Case, m: Meets)
    requires Sound(c)
    ensures var s := Finish(c, m);
      && (s.ruling.Some? ==>
            !c.executed && s.after.executed && s.after.status == Applied && s.after.payload == s.ruling
            && Backed(s.after, s.ruling.value))
      && (s.ruling.None? ==> s.after.executed == c.executed)
  {
    var s := Finish(c, m);
    if s.ruling.Some? {
      var v := s.ruling.value.verdict;
      WinnerFacts(c.seats, c.requiredYes, |c.seats|);
      ElectedFacts(c.seats, c.requiredYes, |c.seats|);
      FirstWithFacts(c.seats, v, |c.seats|);
      if c.status == Deliberating {
        FirstWithFacts(c.seats, Elected(c.seats, c.requiredYes, |c.seats|).value, |c.seats|);
      }
      forall w | w != v
        ensures Holding(c.seats, v) < c.requiredYes || Holding(c.seats, w) < c.requiredYes
        ensures Backing(c.seats, v) < c.requiredYes || Backing(c.seats, w) < c.requiredYes
      {
        MajorityIsUnique(c.seats, v, w);
      }
    }
  }

  lemma NextRules(c: Case, r: Request)
    requires Sound(c)
    ensures var s := Next(c, r);
      && (s.ruling.Some? ==>
        !c.executed && s.after.executed && s.after.status == Applied && Backed(s.after, s.ruling.value))
      && (s.ruling.None? ==> s.after.executed == c.executed)
  {
    match r
    case Submit(_, _, _, _, _, m) =>
      if MaySubmit(c, r) {
        SubmittedSound(c, r);
        FinishRules(Submitted(c, r), m);
      }
    case Cast(_, _, m) =>
      if MayCast(c, r) {
        CastSound(c, r);
        FinishRules(CastIn(c, r), m);
      }
    case Comment(_, _, _, _) =>
    case Close(_, m) => FinishRules(c, m);
  }

  // -------------------------------------------------------------- all sequences

  function Run(c: Case, rs: seq<Request>): Case {
    if rs == [] then c else Next(Run(c, rs[..|rs| - 1]), rs[|rs| - 1]).after
  }

  /** The rulings carried out along the way. */
  function Rulings(c: Case, rs: seq<Request>): seq<Opinion> {
    if rs == [] then []
    else
      Rulings(c, rs[..|rs| - 1]) +
      match Next(Run(c, rs[..|rs| - 1]), rs[|rs| - 1]).ruling
      case Some(o) => [o]
      case None => []
  }

  /** In every reachable state the panel has 2, 3 or 5 seats and needs a strict
      majority of them, the subject holds none, and every ballot that is no
      abstention names an opinion of the current round. */
  lemma {:induction false} CaseInvariant(c: Case, rs: seq<Request>)
    requires Sound(c) && forall k :: 0 <= k < |rs| ==> DistinctReviewers(rs[k])
    ensures Sound(Run(c, rs))
    decreases |rs|
  {
    if rs != [] {
      CaseInvariant(c, rs[..|rs| - 1]);
      NextSound(Run(c, rs[..|rs| - 1]), rs[|rs| - 1]);
    }
  }

  /** Two different seats, neither of them the subject's, without ballots. */
  predicate MayOpen(subject: User, first: Seat, second: Seat) {
    first.user != second.user && first.user != subject && second.user != subject &&
      first.ballot.None? && second.ballot.None?
  }

  /** Every case that was opened and whatever was requested since: two, three or five
      seats of which a strict majority decides, none of them the subject's, and every
      ballot an abstention or for an opinion of the current round. */
  lemma {:induction false} EveryCaseIsSound(subject: User, category: string, itemKey: string, lowest: real,
    highest: real, first: Seat, second: Seat, now: int, rs: seq<Request>)
    requires MayOpen(subject, first, second) && forall k :: 0 <= k < |rs| ==> DistinctReviewers(rs[k])
    ensures var c := OpenedCase(subject, category, itemKey, lowest, highest, first, second, now);
      Sound(c) && !c.executed && Sound(Run(c, rs)) && |Rulings(c, rs)| <= 1
  {
    var c := OpenedCase(subject, category, itemKey, lowest, highest, first, second, now);
    CaseInvariant(c, rs);
    RuledAtMostOnce(c, rs);
  }

  /** Over any sequence of requests a case is ruled at most once, whatever status
      it has gone back to since. */
  lemma {:induction false} RuledAtMostOnce(c: Case, rs: seq<Request>)
    requires Sound(c) && forall k :: 0 <= k < |rs| ==> DistinctReviewers(rs[k])
    ensures |Rulings(c, rs)| <= 1
    ensures Run(c, rs).executed <==> c.executed || |Rulings(c, rs)| == 1
    decreases |rs|
  {
    if rs != [] {
      var init := rs[..|rs| - 1];
      RuledAtMostOnce(c, init);
      CaseInvariant(c, init);
      NextRules(Run(c, init), rs[|rs| - 1]);
    }
  }

  /** Every ruling on the way had the one majority there was. */
  lemma {:induction false} RulingHasMajority(c: Case, rs: seq<Request>, r: Request)
    requires Sound(c) && forall k :: 0 <= k < |rs| ==> DistinctReviewers(rs[k])
    requires Next(Run(c, rs), r).ruling.Some?
    ensures !Run(c, rs).executed
    ensures Backed(Next(Run(c, rs), r).after, Next(Run(c, rs), r).ruling.value)
  {
    CaseInvariant(c, rs);
    NextRules(Run(c, rs), r);
  }

  // ------------------------------------------------------------------ how much work

  function Spoken(seats: seq<Seat>): (n: nat)
    ensures n <= |seats|
  {
    if seats == [] then 0 else Spoken(seats[..|seats| - 1]) + if seats[|seats| - 1].opinion.Some? then 1 else 0
  }

  function Current(c: Case): nat {
    Spoken(c.seats) + Ballots(c.seats)
  }

  predicate Accepted(c: Case, r: Request) {
    (r.Submit? && MaySubmit(c, r)) || (r.Cast? && MayCast(c, r))
  }

  /** How many opinions and ballots were accepted. */
  function Taken(c: Case, rs: seq<Request>): nat {
    if rs == [] then 0
    else Taken(c, rs[..|rs| - 1]) + if Accepted(Run(c, rs[..|rs| - 1]), rs[|rs| - 1]) then 1 else 0
  }

  lemma {:induction false} SpokenUpdate(seats: seq<Seat>, i: nat, s: Seat)
    requires i < |seats|
    ensures Spoken(seats[i := s]) ==
      Spoken(seats) + (if s.opinion.Some? then 1 else 0) - (if seats[i].opinion.Some? then 1 else 0)
    ensures Ballots(seats[i := s]) ==
      Ballots(seats) + (if s.ballot.Some? then 1 else 0) - (if seats[i].ballot.Some? then 1 else 0)
    decreases |seats|
  {
    var n := |seats| - 1;
    if i == n {
      assert seats[i := s][..n] == seats[..n];
    } else {
      assert seats[i := s][..n] == seats[..n][i := s];
      SpokenUpdate(seats[..n], i, s);
    }
  }

  lemma {:induction false} SpokenAppend(seats: seq<Seat>, more: seq<Seat>)
    requires forall k :: 0 <= k < |more| ==> more[k].opinion.None? && more[k].ballot.None?
    ensures Spoken(seats + more) == Spoken(seats) && Ballots(seats + more) == Ballots(seats)
    decreases |more|
  {
    if more == [] {
      assert seats + more == seats;
    } else {
      assert (seats + more)[..|seats + more| - 1] == seats + more[..|more| - 1];
      SpokenAppend(seats, more[..|more| - 1]);
    }
  }

  lemma ExpandCurrent(c: Case, reviewers: seq<User>)
    requires |c.seats| < MAX_SEATS
    ensures Current(Expand(c, reviewers)) == Current(c) && Expand(c, reviewers).round == c.round
  {
    var next := if |c.seats| == 2 then 3 else 5;
    var pool := Pool(reviewers, c.seats, c.subject);
    if |pool| >= next - |c.seats| + SPARE_REVIEWERS {
      SpokenAppend(c.seats, NewSeats(pool[..next - |c.seats|]));
    }
  }

  lemma FinishCurrent(c: Case, m: Meets)
    ensures Current(Finish(c, m).after) == Current(c) && Finish(c, m).after.round == c.round
  {
    var d := Finish(c, m).after;
    if |c.seats| < MAX_SEATS {
      ExpandCurrent(c, m.reviewers);
      assert d == Expand(c, m.reviewers) || d.seats == c.seats;
    }
  }

  lemma NextCurrent(c: Case, r: Request)
    requires Sound(c)
    ensures var d := Next(c, r).after;
      && c.round <= d.round
      && Current(c) + (if Accepted(c, r) then 1 else 0) <= Current(d) + 10 * (d.round - c.round)
  {
    match r
    case Submit(user, _, rejected, score, reason, m) =>
      if MaySubmit(c, r) {
        var i := SeatOf(c.seats, user);
        SpokenUpdate(c.seats, i, Submitted(c, r).seats[i]);
        FinishCurrent(Submitted(c, r), m);
      }
    case Cast(user, _, m) =>
      if MayCast(c, r) {
        var i := SeatOf(c.seats, user);
        SpokenUpdate(c.seats, i, CastIn(c, r).seats[i]);
        FinishCurrent(CastIn(c, r), m);
      }
    case Comment(_, _, _, _) =>
    case Close(_, m) => FinishCurrent(c, m);
  }

  lemma {:induction false} TakenBound(c: Case, rs: seq<Request>)
    requires Sound(c) && forall k :: 0 <= k < |rs| ==> DistinctReviewers(rs[k])
    ensures Current(c) + Taken(c, rs) <= Current(Run(c, rs)) + 10 * (Run(c, rs).round - c.round)
    decreases |rs|
  {
    if rs != [] {
      var init := rs[..|rs| - 1];
      TakenBound(c, init);
      CaseInvariant(c, init);
      NextCurrent(Run(c, init), rs[|rs| - 1]);
    }
  }

  /** A case never takes more than twenty opinions and ballots. */
  lemma {:induction false} AtMostTwenty(c: Case, rs: seq<Request>)
    requires Sound(c) && forall k :: 0 <= k < |rs| ==> DistinctReviewers(rs[k])
    ensures Current(c) + Taken(c, rs) <= 20
  {
    TakenBound(c, rs);
    CaseInvariant(c, rs);
  }

  /** Disagreement enlarges a panel from two seats to three and from three to five,
      or blocks the case for want of reviewers; the opinions given are kept, and
      those who join were drawn from the reviewers and sat on no seat before. A
      full panel deliberates. */
  lemma PanelGrows(c: Case, m: Meets)
    requires Sound(c) && AllSpoke(c.seats) && c.status != Deliberating && c.status != Applied
    requires Winner(c.seats, c.requiredYes, |c.seats|).None?
    requires Distinct(m.reviewers)
    ensures var n, d := |c.seats|, Finish(c, m).after;
      if n == MAX_SEATS then d.status == Deliberating && d.seats == c.seats
      else
        || (d.status == Blocked && d.seats == c.seats)
        || (&& d.status == c.status && |d.seats| == (if n == 2 then 3 else 5) && d.seats[..n] == c.seats
            && forall i :: n <= i < |d.seats| ==> d.seats[i].user in m.reviewers && !Seated(c.seats, d.seats[i].user))
  {
    if |c.seats| < MAX_SEATS {
      PoolIsAvailable(m.reviewers, c.seats, c.subject);
      var d, pool := Expand(c, m.reviewers), Pool(m.reviewers, c.seats, c.subject);
      var n := |c.seats|;
      forall i | n <= i < |d.seats|
        ensures d.seats[i].user in m.reviewers && !Seated(c.seats, d.seats[i].user)
      {
        var u := pool[i - n];
        assert d.seats[i] == Seat(u, None, None);
        assert u in pool && u in m.reviewers;
      }
    }
  }

  // ---------------------------------------------------------------- odd corners

  /** Closing an applied case leaves it applied exactly when its opinions had a
      majority; one decided by ballots alone goes back to deliberation. */
  lemma CloseReopensBallotRuling(c: Case, u: User, m: Meets)
    requires Sound(c) && c.status == Applied && MayRead(c, u)
    ensures var d := Next(c, Close(u, m)).after;
      && (d.status == Applied <==> Winner(c.seats, c.requiredYes, |c.seats|).Some?)
      && (d.status != Applied ==> d.status == Deliberating)
      && Next(c, Close(u, m)).ruling == None
  {
  }

  lemma ExecutedStep(c: Case, r: Request)
    requires c.executed
    ensures Next(c, r).ruling == None && Next(c, r).after.executed
    ensures c.status != Applied ==> Next(c, r).after.status != Applied
  {
  }

  /** A case that was ruled is never ruled again, whatever is requested; once it has
      left applied, by a close or by new facts, it never returns there. */
  lemma {:induction false} RuledForGood(c: Case, rs: seq<Request>, more: seq<Request>)
    requires Run(c, rs).executed
    ensures var before, after := Run(c, rs), Run(c, rs + more);
      && after.executed && Rulings(c, rs + more) == Rulings(c, rs)
      && (before.status != Applied ==> after.status != Applied)
    decreases |more|
  {
    if more == [] {
      assert rs + more == rs;
    } else {
      var init, last := more[..|more| - 1], more[|more| - 1];
      assert (rs + more)[..|rs + more| - 1] == rs + init;
      RuledForGood(c, rs, init);
      ExecutedStep(Run(c, rs + init), last);
    }
  }

  /** What a close makes of a ruled case with a full panel that has spoken: it
      deliberates unless its opinions have a majority, and is blocked when every
      ballot is cast and none has one. */
  lemma ClosingRuledCase(c: Case, u: User, m: Meets)
    requires Sound(c) && c.executed && MayRead(c, u) && AllSpoke(c.seats) && |c.seats| == MAX_SEATS
    ensures Next(c, Close(u, m)).after.status ==
      if c.status == Deliberating then
        (if AllVoted(c.seats) && Elected(c.seats, c.requiredYes, |c.seats|).None? then Blocked else Deliberating)
      else if Winner(c.seats, c.requiredYes, |c.seats|).Some? then c.status
      else Deliberating
  {
    ElectedFacts(c.seats, c.requiredYes, |c.seats|);
  }

  /** Ruled in its last round, by ballots of a full panel. */
  ghost predicate RuledLastRound(c: Case) {
    && c.executed && c.round == MAX_ROUND && |c.seats| == MAX_SEATS && AllSpoke(c.seats)
    && (c.status == Applied || c.status == Deliberating)
    && c.requiredYes > 0 && exists v :: Backing(c.seats, v) >= c.requiredYes
  }

  lemma {:induction false} SomeoneBacks(seats: seq<Seat>, v: Verdict) returns (i: nat)
    requires Backing(seats, v) > 0
    ensures i < |seats| && seats[i].ballot == Some(For(v))
  {
    i := |seats| - 1;
    if seats[i].ballot != Some(For(v)) {
      i := SomeoneBacks(seats[..i], v);
    }
  }

  lemma {:induction false} ElectedOnceBacked(seats: seq<Seat>, need: nat, v: Verdict)
    requires need > 0 && Backing(seats, v) >= need
    ensures Elected(seats, need, |seats|).Some?
  {
    ElectedFacts(seats, need, |seats|);
    var i := SomeoneBacks(seats, v);
  }

  lemma {:induction false} BackingGrows(seats: seq<Seat>, i: nat, ballot: Ballot, v: Verdict)
    requires i < |seats| && seats[i].ballot.None?
    ensures Backing(seats[i := seats[i].(ballot := Some(ballot))], v) >= Backing(seats, v)
    decreases |seats|
  {
    var n := |seats| - 1;
    var more := seats[i := seats[i].(ballot := Some(ballot))];
    if i == n {
      assert more[..n] == seats[..n];
    } else {
      assert more[..n] == seats[..n][i := seats[i].(ballot := Some(ballot))];
      BackingGrows(seats[..n], i, ballot, v);
    }
  }

  lemma LastRoundStep(c: Case, r: Request)
    requires RuledLastRound(c)
    ensures RuledLastRound(Next(c, r).after)
  {
    var v :| Backing(c.seats, v) >= c.requiredYes;
    ElectedOnceBacked(c.seats, c.requiredYes, v);
    if r.Cast? && MayCast(c, r) {
      var d := CastIn(c, r);
      BackingGrows(c.seats, SeatOf(c.seats, r.user), r.ballot, v);
      ElectedOnceBacked(d.seats, d.requiredYes, v);
      assert Backing(d.seats, v) >= d.requiredYes;
    }
  }

  /** Such a case stays applied or goes back to deliberation for good; nothing else can
      become of it. */
  lemma {:induction false} RuledLastRoundStays(c: Case, rs: seq<Request>)
    requires RuledLastRound(c)
    ensures RuledLastRound(Run(c, rs)) && Rulings(c, rs) == []
    decreases |rs|
  {
    if rs != [] {
      var init := rs[..|rs| - 1];
      RuledLastRoundStays(c, init);
      LastRoundStep(Run(c, init), rs[|rs| - 1]);
      ExecutedStep(Run(c, init), rs[|rs| - 1]);
    }
  }

  /** New facts reopen a ruled case that deliberates again: opinions are asked for once
      more, but whatever they say is not carried out. */
  lemma {:induction false} ReopenedAfterRuling(c: Case, r: Request, rs: seq<Request>)
    requires c.executed && c.status == Deliberating && r.Comment? && MayComment(c, r)
    ensures var d := Next(c, r).after;
      && d.status == Voting && d.round == c.round + 1 && d.executed
      && (forall k :: 0 <= k < |d.seats| ==> d.seats[k].opinion.None? && d.seats[k].ballot.None?)
      && Rulings(d, rs) == [] && Run(d, rs).status != Applied
  {
    RuledForGood(Next(c, r).after, [], rs);
    assert [] + rs == rs;
  }

  lemma StuckStep(c: Case, r: Request)
    requires c.status == Blocked && !AllSpoke(c.seats) && c.round >= MAX_ROUND
    ensures Next(c, r) == Step(c, None)
  {
  }

  /** A blocked panel that was still enlarged cannot act: its new seats may not
      submit, and closing changes nothing. Only new facts from the subject, once,
      reopen the case; after that it stays blocked for good. */
  lemma {:induction false} BlockedPanelIsStuck(c: Case, rs: seq<Request>)
    requires c.status == Blocked && !AllSpoke(c.seats) && c.round >= MAX_ROUND
    ensures Run(c, rs) == c && Rulings(c, rs) == []
    decreases |rs|
  {
    if rs != [] {
      BlockedPanelIsStuck(c, rs[..|rs| - 1]);
      StuckStep(c, rs[|rs| - 1]);
    }
  }

  /** How a case gets there: a close finds enough reviewers for a blocked panel. */
  lemma BlockedPanelGrows(c: Case, u: User, m: Meets)
    requires Sound(c) && c.status == Blocked && MayRead(c, u) && AllSpoke(c.seats) && |c.seats| < MAX_SEATS
    requires Winner(c.seats, c.requiredYes, |c.seats|).None?
    ensures var next := if |c.seats| == 2 then 3 else 5;
      var d := Next(c, Close(u, m)).after;
      && d.status == Blocked
      && (|Pool(m.reviewers, c.seats, c.subject)| >= next - |c.seats| + SPARE_REVIEWERS <==> !AllSpoke(d.seats))
      && (!AllSpoke(d.seats) ==> |d.seats| == next)
  {
    var next := if |c.seats| == 2 then 3 else 5;
    var d := Next(c, Close(u, m)).after;
    if |Pool(m.reviewers, c.seats, c.subject)| >= next - |c.seats| + SPARE_REVIEWERS {
      assert d.seats[|c.seats|].opinion.None?;
    }
  }
}
