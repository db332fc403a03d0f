/** A review or appeal case before a panel of peers: independent opinions, a panel
    that grows from two to three to five seats, and a ballot over the opinions
    (mock/src/governance.ts). Each request is one step. */
module GovernanceCase {
  import opened Options

  type User = string

  /** What makes two opinions the same; the reason is not part of it. */
  datatype Verdict = Verdict(rejected: bool, score: real, category: string, itemKey: string)

  datatype Opinion = Opinion(verdict: Verdict, reason: string)

  datatype Ballot = Abstain | For(verdict: Verdict)

  datatype Seat = Seat(user: User, opinion: Option<Opinion>, ballot: Option<Ballot>)

  datatype Status = Voting | Deliberating | Blocked | Applied

  datatype Case = Case(
    subject: User, category: string, itemKey: string, lowest: real, highest: real,
    seats: seq<Seat>, requiredYes: nat, status: Status, round: nat, executed: bool,
    payload: Option<Opinion>, closesAt: int)

  const DAY := 86400000
  const MAX_SEATS := 5
  const MAX_ROUND := 2
  const SPARE_REVIEWERS := 5
  const MIN_REASON := 4
  const MIN_EVIDENCE := 20

  /** What a request meets: the time, the eligible reviewers in the order a draw
      puts them, and whether carrying out the ruling works. */
  datatype Meets = Meets(now: int, reviewers: seq<User>, runs: bool)

  datatype Request =
    | Submit(user: User, version: nat, rejected: bool, score: real, reason: string, meets: Meets)
    | Cast(user: User, ballot: Ballot, meets: Meets)
    | Comment(user: User, evidence: bool, body: string, now: int)
    | Close(user: User, meets: Meets)

  /** The case afterwards, and the ruling if it was carried out in this step. */
  datatype Step = Step(after: Case, ruling: Option<Opinion>)

  /** A new case: two seats, which both have to agree. One of them may come with an
      opinion. */
  function OpenedCase(subject: User, category: string, itemKey: string, lowest: real, highest: real,
                      first: Seat, second: Seat, now: int): Case
  {
    Case(subject, category, itemKey, lowest, highest, [first, second], 2, Voting, 1, false, None, now + 2 * DAY)
  }

  // ------------------------------------------------------------------- counting

  /** How many seats hold that verdict as their opinion. */
  function Holding(seats: seq<Seat>, v: Verdict): (n: nat)
    ensures n <= |seats|
  {
    if seats == [] then 0
    else
      var last := seats[|seats| - 1].opinion;
      Holding(seats[..|seats| - 1], v) + if last.Some? && last.value.verdict == v then 1 else 0
  }

  function Backing(seats: seq<Seat>, v: Verdict): (n: nat)
    ensures n <= |seats|
  {
    if seats == [] then 0
    else Backing(seats[..|seats| - 1], v) + if seats[|seats| - 1].ballot == Some(For(v)) then 1 else 0
  }

  function Ballots(seats: seq<Seat>): (n: nat)
    ensures n <= |seats|
  {
    if seats == [] then 0 else Ballots(seats[..|seats| - 1]) + if seats[|seats| - 1].ballot.Some? then 1 else 0
  }

  predicate AllSpoke(seats: seq<Seat>) {
    forall i :: 0 <= i < |seats| ==> seats[i].opinion.Some?
  }

  predicate AllVoted(seats: seq<Seat>) {
    forall i :: 0 <= i < |seats| ==> seats[i].ballot.Some?
  }

  /** The first opinion whose verdict enough seats hold. */
  function Winner(seats: seq<Seat>, need: nat, n: nat): Option<Opinion>
    requires n <= |seats|
  {
    if n == 0 then None
    else
      var earlier := Winner(seats, need, n - 1);
      if earlier.Some? then earlier
      else if seats[n - 1].opinion.Some? && Holding(seats, seats[n - 1].opinion.value.verdict) >= need
      then seats[n - 1].opinion
      else None
  }

  /** The first ballot for a verdict that enough seats back. */
  function Elected(seats: seq<Seat>, need: nat, n: nat): Option<Verdict>
    requires n <= |seats|
  {
    if n == 0 then None
    else
      var earlier := Elected(seats, need, n - 1);
      if earlier.Some? then earlier
      else
        match seats[n - 1].ballot
        case Some(For(v)) => if Backing(seats, v) >= need then Some(v) else None
        case _ => None
  }

  function FirstWith(seats: seq<Seat>, v: Verdict, n: nat): Option<Opinion>
    requires n <= |seats|
  {
    if n == 0 then None
    else
      var earlier := FirstWith(seats, v, n - 1);
      if earlier.Some? then earlier
      else if seats[n - 1].opinion.Some? && seats[n - 1].opinion.value.verdict == v then seats[n - 1].opinion
      else None
  }

  predicate Seated(seats: seq<Seat>, u: User) {
    exists i :: 0 <= i < |seats| && seats[i].user == u
  }

  function SeatOf(seats: seq<Seat>, u: User): (i: int)
    ensures -1 <= i < |seats|
    ensures i >= 0 ==> seats[i].user == u
    ensures i < 0 ==> !Seated(seats, u)
  {
    if seats == [] then -1
    else if seats[|seats| - 1].user == u then |seats| - 1
    else
      var i := SeatOf(seats[..|seats| - 1], u);
      assert i < 0 ==> forall k :: 0 <= k < |seats| - 1 ==> seats[..|seats| - 1][k] == seats[k];
      i
  }

  // -------------------------------------------------------------------- deciding

  /** Carries out a ruling, unless that was done before; it may fail. */
  function Rule(c: Case, opinion: Opinion, runs: bool): Step {
    var ruled := c.(payload := Some(opinion));
    if c.executed || !runs then Step(ruled, None)
    else Step(ruled.(status := Applied, executed := true), Some(opinion))
  }

  /** Reviewers who could join: neither seated nor the subject. */
  function Pool(reviewers: seq<User>, seats: seq<Seat>, subject: User): seq<User> {
    if reviewers == [] then []
    else
      var u := reviewers[|reviewers| - 1];
      Pool(reviewers[..|reviewers| - 1], seats, subject) + if Seated(seats, u) || u == subject then [] else [u]
  }

  function NewSeats(users: seq<User>): (r: seq<Seat>)
    ensures |r| == |users|
  {
    seq(|users|, (i: nat) requires i < |users| => Seat(users[i], None, None))
  }

  function Expand(c: Case, reviewers: seq<User>): Case
    requires |c.seats| < MAX_SEATS
  {
    var next := if |c.seats| == 2 then 3 else 5;
    var pool := Pool(reviewers, c.seats, c.subject);
    if |pool| < next - |c.seats| + SPARE_REVIEWERS then c.(status := Blocked)
    else c.(seats := c.seats + NewSeats(pool[..next - |c.seats|]), requiredYes := next / 2 + 1)
  }

  /** The decision of a deliberation. */
  function Tally(c: Case, runs: bool): Step {
    match Elected(c.seats, c.requiredYes, |c.seats|)
    case Some(v) =>
      (match FirstWith(c.seats, v, |c.seats|)
       case Some(opinion) => Rule(c, opinion, runs)
       case None => Step(c, None))
    case None => Step(if AllVoted(c.seats) then c.(status := Blocked) else c, None)
  }

  function Finish(c: Case, m: Meets): Step {
    if !AllSpoke(c.seats) then Step(c, None)
    else if c.status == Deliberating then Tally(c, m.runs)
    else
      match Winner(c.seats, c.requiredYes, |c.seats|)
      case Some(opinion) => Rule(c, opinion, m.runs)
      case None =>
        if |c.seats| < MAX_SEATS then Step(Expand(c, m.reviewers), None)
        else Step(c.(status := Deliberating, closesAt := m.now + 2 * DAY), None)
  }

  // -------------------------------------------------------------------- requests

  predicate MaySubmit(c: Case, r: Request)
    requires r.Submit?
  {
    var i := SeatOf(c.seats, r.user);
    && i >= 0 && r.user != c.subject
    && c.status == Voting && c.seats[i].opinion.None? && r.version == c.round
    && (r.rejected || c.lowest <= r.score <= c.highest) && |r.reason| >= MIN_REASON
  }

  function Submitted(c: Case, r: Request): Case
    requires r.Submit? && MaySubmit(c, r)
  {
    var i := SeatOf(c.seats, r.user);
    var verdict := Verdict(r.rejected, if r.rejected then 0.0 else r.score, c.category, c.itemKey);
    c.(seats := c.seats[i := c.seats[i].(opinion := Some(Opinion(verdict, r.reason)))])
  }

  predicate MayCast(c: Case, r: Request)
    requires r.Cast?
  {
    var i := SeatOf(c.seats, r.user);
    && i >= 0 && r.user != c.subject
    && c.status == Deliberating && c.seats[i].ballot.None?
    && (r.ballot.For? ==> FirstWith(c.seats, r.ballot.verdict, |c.seats|).Some?)
  }

  function CastIn(c: Case, r: Request): Case
    requires r.Cast? && MayCast(c, r)
  {
    var i := SeatOf(c.seats, r.user);
    c.(seats := c.seats[i := c.seats[i].(ballot := Some(r.ballot))])
  }

  predicate MayComment(c: Case, r: Request)
    requires r.Comment?
  {
    c.status != Applied && r.user == c.subject && r.evidence && |r.body| >= MIN_EVIDENCE && c.round < MAX_ROUND
  }

  function Cleared(seats: seq<Seat>): (r: seq<Seat>)
    ensures |r| == |seats|
  {
    seq(|seats|, (i: nat) requires i < |seats| => Seat(seats[i].user, None, None))
  }

  /** New facts from the subject: opinions and ballots are void, a new round. */
  function Reopened(c: Case, now: int): Case {
    c.(seats := Cleared(c.seats), round := c.round + 1, status := Voting, closesAt := now + 2 * DAY)
  }

  predicate MayRead(c: Case, u: User) {
    u == c.subject || Seated(c.seats, u)
  }

  /** One request; a refused one changes nothing. */
  function Next(c: Case, r: Request): Step {
    match r
    case Submit(_, _, _, _, _, m) => if MaySubmit(c, r) then Finish(Submitted(c, r), m) else Step(c, None)
    case Cast(_, _, m) => if MayCast(c, r) then Finish(CastIn(c, r), m) else Step(c, None)
    case Comment(_, _, _, now) => Step(if MayComment(c, r) then Reopened(c, now) else c, None)
    case Close(u, m) => if MayRead(c, u) then Finish(c, m) else Step(c, None)
  }

  // ------------------------------------------------------------------ the case file

  class CaseFile {
    const subject: User
    const category: string
    const itemKey: string
    const lowest: real
    const highest: real
    var seats: seq<Seat>
    var requiredYes: nat
    var status: Status
    var round: nat
    var executed: bool
    var payload: Option<Opinion>
    var closesAt: int

    constructor (c: Case)
      ensures Value() == c
    {
      subject, category, itemKey, lowest, highest := c.subject, c.category, c.itemKey, c.lowest, c.highest;
      seats, requiredYes, status, round := c.seats, c.requiredYes, c.status, c.round;
      executed, payload, closesAt := c.executed, c.payload, c.closesAt;
    }

    ghost function Value(): Case
      reads this
    {
      Case(subject, category, itemKey, lowest, highest, seats, requiredYes, status, round, executed, payload, closesAt)
    }

    method Execute(opinion: Opinion, runs: bool) returns (ruling: Option<Opinion>)
      modifies this
      ensures Step(Value(), ruling) == Rule(old(Value()), opinion, runs)
    {
      payload := Some(opinion);
      if executed || !runs {
        return None;
      }
      status := Applied;
      executed := true;
      return Some(opinion);
    }

    method FindWinner() returns (winner: Option<Opinion>)
      ensures winner == Winner(seats, requiredYes, |seats|)
    {
      winner := None;
      for i := 0 to |seats|
        invariant winner == Winner(seats, requiredYes, i)
      {
        if winner.None? && seats[i].opinion.Some? && Holding(seats, seats[i].opinion.value.verdict) >= requiredYes {
          winner := seats[i].opinion;
        }
      }
    }

    method FindElected() returns (elected: Option<Verdict>)
      ensures elected == Elected(seats, requiredYes, |seats|)
    {
      elected := None;
      for i := 0 to |seats|
        invariant elected == Elected(seats, requiredYes, i)
      {
        if elected.None? {
          match seats[i].ballot {
            case Some(For(v)) =>
              if Backing(seats, v) >= requiredYes {
                elected := Some(v);
              }
            case _ =>
          }
        }
      }
    }

    method AddSeats(reviewers: seq<User>)
      requires |seats| < MAX_SEATS
      modifies this
      ensures Value() == Expand(old(Value()), reviewers)
    {
      var next := if |seats| == 2 then 3 else 5;
      var pool := Pool(reviewers, seats, subject);
      if |pool| < next - |seats| + SPARE_REVIEWERS {
        status := Blocked;
        return;
      }
      ghost var was := seats;
      ghost var joining := NewSeats(pool[..next - |was|]);
      for i := 0 to next - |seats|
        invariant next == |was| + |joining| && |seats| == |was| + i
        invariant seats == was + joining[..i]
        invariant Value() == old(Value()).(seats := seats)
      {
        seats := seats + [Seat(pool[i], None, None)];
        assert joining[..i + 1] == joining[..i] + [joining[i]];
      }
      assert joining[..|joining|] == joining;
      requiredYes := next / 2 + 1;
    }

    method FinishCase(m: Meets) returns (ruling: Option<Opinion>)
      modifies this
      ensures Step(Value(), ruling) == Finish(old(Value()), m)
    {
      ruling := None;
      if !AllSpoke(seats) {
        return;
      }
      if status == Deliberating {
        var elected := FindElected();
        if elected.Some? {
          var chosen := FirstWith(seats, elected.value, |seats|);
          if chosen.Some? {
            ruling := Execute(chosen.value, m.runs);
          }
        } else if AllVoted(seats) {
          status := Blocked;
        }
        return;
      }
      var winner := FindWinner();
      if winner.Some? {
        ruling := Execute(winner.value, m.runs);
      } else if |seats| < MAX_SEATS {
        AddSeats(m.reviewers);
      } else {
        status := Deliberating;
        closesAt := m.now + 2 * DAY;
      }
    }

    method Handle(r: Request) returns (ruling: Option<Opinion>)
      modifies this
      ensures Step(Value(), ruling) == Next(old(Value()), r)
    {
      ruling := None;
      match r {
        case Submit(user, version, rejected, score, reason, m) =>
          var i := SeatOf(seats, user);
          if i < 0 || user == subject || status != Voting || seats[i].opinion.Some? || version != round
            || !(rejected || lowest <= score <= highest) || |reason| < MIN_REASON {
            return;
          }
          var verdict := Verdict(rejected, if rejected then 0.0 else score, category, itemKey);
          seats := seats[i := seats[i].(opinion := Some(Opinion(verdict, reason)))];
          ruling := FinishCase(m);
        case Cast(user, ballot, m) =>
          var i := SeatOf(seats, user);
          if i < 0 || user == subject || status != Deliberating || seats[i].ballot.Some?
            || (ballot.For? && FirstWith(seats, ballot.verdict, |seats|).None?) {
            return;
          }
          seats := seats[i := seats[i].(ballot := Some(ballot))];
          ruling := FinishCase(m);
        case Comment(user, evidence, body, now) =>
          if status != Applied && user == subject && evidence && |body| >= MIN_EVIDENCE && round < MAX_ROUND {
            round := round + 1;
            seats := Cleared(seats);
            status := Voting;
            closesAt := now + 2 * DAY;
          }
        case Close(user, m) =>
          if user == subject || Seated(seats, user) {
            ruling := FinishCase(m);
          }
      }
    }
  }
}
