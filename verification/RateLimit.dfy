/** The hourly search limit: counted first, logged later, with other requests in between. */
module RateLimit {

  datatype Visitor = Visitor(event: nat, ip: nat)

  datatype Outcome = Ok | NoMatch | RejectedQuality | Error | RateLimited

  datatype Log = Log(who: Visitor, time: int, outcome: Outcome)

  const HOUR := 3600

  /** Log rows of one visitor that count, in the half-open window (after, upTo]. */
  predicate Counts(l: Log, who: Visitor, after: int, upTo: int) {
    l.who == who && after < l.time <= upTo && l.outcome != RateLimited
  }

  function Count(logs: seq<Log>, who: Visitor, after: int, upTo: int): (n: nat) {
    if logs == [] then 0
    else Count(logs[..|logs| - 1], who, after, upTo) + if Counts(logs[|logs| - 1], who, after, upTo) then 1 else 0
  }

  /** Searches in the hour that ends at `t`. */
  function InHour(logs: seq<Log>, who: Visitor, t: int): (n: nat) {
    Count(logs, who, t - HOUR, t)
  }

  /** The table, and the requests that were checked and have not written their row. */
  datatype World = World(now: int, logs: seq<Log>, passed: multiset<Visitor>, turnedAway: multiset<Visitor>)

  datatype Step =
    | Tick(seconds: nat)
    | Check(who: Visitor)
    | Finish(who: Visitor, outcome: Outcome)
    | LogRefusal(who: Visitor)
    | Crash(who: Visitor)

  function Recent(x: World, who: Visitor): (n: nat) {
    InHour(x.logs, who, x.now)
  }

  /** A step that cannot be taken changes nothing. */
  function Next(x: World, limit: nat, s: Step): (y: World) {
    match s
    case Tick(seconds) => x.(now := x.now + seconds)
    case Check(who) =>
      if Recent(x, who) >= limit then x.(turnedAway := x.turnedAway + multiset{who})
      else x.(passed := x.passed + multiset{who})
    case Finish(who, outcome) =>
      if who in x.passed && outcome != RateLimited
      then x.(passed := x.passed - multiset{who}, logs := x.logs + [Log(who, x.now, outcome)])
      else x
    case LogRefusal(who) =>
      if who in x.turnedAway
      then x.(turnedAway := x.turnedAway - multiset{who}, logs := x.logs + [Log(who, x.now, RateLimited)])
      else x
    case Crash(who) => if who in x.passed then x.(passed := x.passed - multiset{who}) else x
  }

  function Run(x: World, limit: nat, steps: seq<Step>): (y: World) {
    if steps == [] then x else Next(Run(x, limit, steps[..|steps| - 1]), limit, steps[|steps| - 1])
  }

  function Start(now: int): (x: World) {
    World(now, [], multiset{}, multiset{})
  }

  // -------------------------------------------------------------------------
  // What is counted, row by row
  // -------------------------------------------------------------------------

  /** Positions of the visitor's rows in the hour that ends at `t`, whatever came of the search, refusals apart. */
  ghost function SearchesIn(logs: seq<Log>, who: Visitor, t: int): (r: set<nat>) {
    set i: nat | i < |logs| && logs[i].who == who && t - 3600 < logs[i].time <= t && logs[i].outcome != RateLimited
  }

  ghost function Recents(logs: seq<Log>, who: Visitor, now: int): (r: set<nat>) {
    set i: nat | i < |logs| && logs[i].who == who && now - 3600 < logs[i].time && logs[i].outcome != RateLimited
  }

  lemma OneMore(before: set<nat>, after: set<nat>, n: nat, last: bool)
    requires n !in before && forall i: nat :: i in after <==> i in before || (last && i == n)
    ensures |after| == |before| + if last then 1 else 0
  {
    assert after == before + if last then {n} else {};
  }

  lemma {:induction false} InHourIs(logs: seq<Log>, who: Visitor, t: int)
    ensures InHour(logs, who, t) == |SearchesIn(logs, who, t)|
    decreases |logs|
  {
    if logs == [] {
      assert SearchesIn(logs, who, t) == {};
    } else {
      var n := |logs| - 1;
      InHourIs(logs[..n], who, t);
      OneMore(SearchesIn(logs[..n], who, t), SearchesIn(logs, who, t), n, Counts(logs[n], who, t - HOUR, t));
    }
  }

  /** A search that ends, however it ends, adds one to its own visitor's count at that moment and to no other's;
      what else may happen adds nothing to anybody's. */
  lemma EveryOutcomeCounts(x: World, limit: nat, s: Step, who: Visitor)
    ensures var y := Next(x, limit, s);
            |SearchesIn(y.logs, who, x.now)| == |SearchesIn(x.logs, who, x.now)| +
              if s.Finish? && s.who == who && s.outcome != RateLimited && who in x.passed then 1 else 0
  {
    var y := Next(x, limit, s);
    if y.logs != x.logs {
      var n := |x.logs|;
      assert y.logs == x.logs + [y.logs[n]];
      OneMore(SearchesIn(x.logs, who, x.now), SearchesIn(y.logs, who, x.now), n, s.Finish? && s.who == who);
    }
  }

  // -------------------------------------------------------------------------
  // The table, read and written by the handler
  // -------------------------------------------------------------------------

  class SearchLogs {
    var rows: seq<Log>

    /** Rows of the last hour that are not refusals. */
    method CountRecent(who: Visitor, now: int) returns (recent: nat)
      ensures recent ==
        |set i: nat | i < |rows| && rows[i].who == who && now - 3600 < rows[i].time && rows[i].outcome != RateLimited|
    {
      recent := 0;
      for i := 0 to |rows|
        invariant recent == |Recents(rows[..i], who, now)|
      {
        OneMore(Recents(rows[..i], who, now), Recents(rows[..i + 1], who, now), i,
                rows[i].who == who && rows[i].time > now - HOUR && rows[i].outcome != RateLimited);
        if rows[i].who == who && rows[i].time > now - HOUR && rows[i].outcome != RateLimited {
          recent := recent + 1;
        }
      }
      assert rows[..|rows|] == rows;
    }

    /** The check; a refusal is logged, an admission is not yet. */
    method Admit(who: Visitor, limit: nat, now: int) returns (admitted: bool)
      modifies this
      ensures admitted <==>
        |set i: nat | i < |old(rows)| && old(rows)[i].who == who && now - 3600 < old(rows)[i].time
                      && old(rows)[i].outcome != RateLimited| < limit
      ensures rows == if admitted then old(rows) else old(rows) + [Log(who, now, RateLimited)]
      // on a log with no row of a later time it decides as the transition system does
      ensures (forall i :: 0 <= i < |old(rows)| ==> old(rows)[i].time <= now) ==>
        admitted == (InHour(old(rows), who, now) < limit)
    {
      var recent := CountRecent(who, now);
      InHourIs(rows, who, now);
      assert (forall i :: 0 <= i < |rows| ==> rows[i].time <= now) ==>
        SearchesIn(rows, who, now) == Recents(rows, who, now);
      if recent >= limit {
        rows := rows + [Log(who, now, RateLimited)];
        return false;
      }
      return true;
    }
  }

  // -------------------------------------------------------------------------
  // The bound
  // -------------------------------------------------------------------------

  /** At no point of the run are more than `most` of this visitor's requests between check and log. */
  ghost predicate InFlightAtMost(x: World, limit: nat, steps: seq<Step>, who: Visitor, most: nat) {
    forall k :: 0 <= k <= |steps| ==> Run(x, limit, steps[..k]).passed[who] <= most
  }

  ghost predicate InPast(x: World) {
    forall i :: 0 <= i < |x.logs| ==> x.logs[i].time <= x.now
  }

  ghost predicate Bounded(x: World, who: Visitor, bound: int) {
    forall t: int :: InHour(x.logs, who, t) <= bound
  }

  /** What every step keeps: what is logged in the last hour and what is about to be. */
  ghost predicate Steady(x: World, who: Visitor, bound: int) {
    InPast(x) && Recent(x, who) + x.passed[who] <= bound && Bounded(x, who, bound)
  }

  /** Moving a window's start forward, or its end beyond the last row, never adds rows. */
  lemma {:induction false} LaterWindow(logs: seq<Log>, who: Visitor, a: int, b: int, now: int)
    requires a <= b && forall i :: 0 <= i < |logs| ==> logs[i].time <= now
    ensures forall upTo :: upTo >= now ==> Count(logs, who, b, upTo) <= Count(logs, who, a, now)
    decreases |logs|
  {
    if logs != [] {
      LaterWindow(logs[..|logs| - 1], who, a, b, now);
    }
  }

  lemma TickSteady(x: World, limit: nat, seconds: nat, who: Visitor, bound: int)
    requires Steady(x, who, bound)
    ensures Steady(Next(x, limit, Tick(seconds)), who, bound)
  {
    LaterWindow(x.logs, who, x.now - HOUR, x.now + seconds - HOUR, x.now);
  }

  /** A row written now is in no earlier window, and every later window is inside the last hour. */
  lemma RowSteady(x: World, row: Log, who: Visitor, bound: int)
    requires InPast(x) && Bounded(x, who, bound) && row.time == x.now
    requires InHour(x.logs + [row], who, x.now) <= bound
    ensures Bounded(x.(logs := x.logs + [row]), who, bound)
  {
    var logs := x.logs + [row];
    assert logs[..|logs| - 1] == x.logs;
    forall t: int ensures InHour(logs, who, t) <= bound {
      if t < x.now {
        assert InHour(logs, who, t) == InHour(x.logs, who, t);
      } else {
        LaterWindow(logs, who, x.now - HOUR, t - HOUR, x.now);
      }
    }
  }

  /** Writing one row, by a search that ends or by a refusal. */
  lemma WriteSteady(x: World, y: World, row: Log, who: Visitor, bound: int)
    requires Steady(x, who, bound) && y.now == x.now && y.logs == x.logs + [row] && row.time == x.now
    requires y.passed[who] + (if row.who == who && row.outcome != RateLimited then 1 else 0) <= x.passed[who]
    ensures Steady(y, who, bound)
  {
    assert y.logs[..|y.logs| - 1] == x.logs;
    RowSteady(x, row, who, bound);
    assert x.(logs := x.logs + [row]).logs == y.logs;
  }

  lemma StepSteady(x: World, limit: nat, s: Step, who: Visitor, most: nat)
    requires Steady(x, who, limit - 1 + most) && Next(x, limit, s).passed[who] <= most
    ensures Steady(Next(x, limit, s), who, limit - 1 + most)
  {
    var y := Next(x, limit, s);
    match s {
      case Tick(seconds) => TickSteady(x, limit, seconds, who, limit - 1 + most);
      case Check(_) =>
      case Crash(_) =>
      case Finish(v, outcome) =>
        if y != x {
          WriteSteady(x, y, Log(v, x.now, outcome), who, limit - 1 + most);
        }
      case LogRefusal(v) =>
        if y != x {
          WriteSteady(x, y, Log(v, x.now, RateLimited), who, limit - 1 + most);
        }
    }
  }

  lemma {:induction false} RunSteady(now: int, limit: nat, steps: seq<Step>, who: Visitor, most: nat)
    requires limit + most >= 1 && InFlightAtMost(Start(now), limit, steps, who, most)
    ensures Steady(Run(Start(now), limit, steps), who, limit - 1 + most)
    decreases |steps|
  {
    if steps != [] {
      var init := steps[..|steps| - 1];
      assert forall k :: 0 <= k <= |init| ==> init[..k] == steps[..k];
      RunSteady(now, limit, init, who, most);
      assert steps[..|steps|] == steps;
      StepSteady(Run(Start(now), limit, init), limit, steps[|steps| - 1], who, most);
    }
  }

  /** With at most `most` requests between check and log, no hour holds more than limit - 1 + most
      searches, whatever other visitors do and whichever hour is looked at. */
  lemma HourlyBound(now: int, limit: nat, steps: seq<Step>, who: Visitor, most: nat, t: int)
    requires limit + most >= 1 && InFlightAtMost(Start(now), limit, steps, who, most)
    ensures |SearchesIn(Run(Start(now), limit, steps).logs, who, t)| <= limit - 1 + most
  {
    RunSteady(now, limit, steps, who, most);
    var logs := Run(Start(now), limit, steps).logs;
    InHourIs(logs, who, t);
    assert InHour(logs, who, t) <= limit - 1 + most;
  }

  /** One request at a time never exceeds the limit. */
  lemma SequentialBound(now: int, limit: nat, steps: seq<Step>, who: Visitor, t: int)
    requires InFlightAtMost(Start(now), limit, steps, who, 1)
    ensures |SearchesIn(Run(Start(now), limit, steps).logs, who, t)| <= limit
  {
    HourlyBound(now, limit, steps, who, 1, t);
  }

  // -------------------------------------------------------------------------
  // The bound is met
  // -------------------------------------------------------------------------

  /** The clock stands at `now`, with so many searches logged and so many in flight. */
  ghost predicate IsAt(y: World, now: int, who: Visitor, logged: nat, passed: nat) {
    y.now == now && y.passed[who] == passed && InHour(y.logs, who, now) == logged
  }

  lemma CheckAt(y: World, now: int, limit: nat, who: Visitor, logged: nat, passed: nat)
    requires IsAt(y, now, who, logged, passed) && logged < limit
    ensures IsAt(Next(y, limit, Check(who)), now, who, logged, passed + 1)
  {
  }

  lemma FinishAt(y: World, now: int, limit: nat, who: Visitor, logged: nat, passed: nat)
    requires IsAt(y, now, who, logged, passed + 1)
    ensures IsAt(Next(y, limit, Finish(who, Ok)), now, who, logged + 1, passed)
  {
    assert (y.logs + [Log(who, y.now, Ok)])[..|y.logs|] == y.logs;
  }

  /** Where a run leads, with at most `most` of this visitor's requests ever in flight. */
  ghost predicate Leads(now: int, limit: nat, steps: seq<Step>, who: Visitor, most: nat, logged: nat, passed: nat) {
    && IsAt(Run(Start(now), limit, steps), now, who, logged, passed)
    && InFlightAtMost(Start(now), limit, steps, who, most)
  }

  lemma RunSnoc(x: World, limit: nat, steps: seq<Step>, s: Step)
    ensures Run(x, limit, steps + [s]) == Next(Run(x, limit, steps), limit, s)
  {
    assert (steps + [s])[..|steps|] == steps;
  }

  lemma InFlightSnoc(x: World, limit: nat, steps: seq<Step>, who: Visitor, most: nat, s: Step)
    requires InFlightAtMost(x, limit, steps, who, most) && Run(x, limit, steps + [s]).passed[who] <= most
    ensures InFlightAtMost(x, limit, steps + [s], who, most)
  {
    var more := steps + [s];
    forall k | 0 <= k <= |more| ensures Run(x, limit, more[..k]).passed[who] <= most {
      if k <= |steps| {
        assert more[..k] == steps[..k];
      } else {
        assert more[..k] == more;
      }
    }
  }

  lemma LeadsCheck(now: int, limit: nat, steps: seq<Step>, who: Visitor, most: nat, logged: nat, passed: nat)
    requires Leads(now, limit, steps, who, most, logged, passed) && logged < limit && passed < most
    ensures Leads(now, limit, steps + [Check(who)], who, most, logged, passed + 1)
  {
    RunSnoc(Start(now), limit, steps, Check(who));
    CheckAt(Run(Start(now), limit, steps), now, limit, who, logged, passed);
    InFlightSnoc(Start(now), limit, steps, who, most, Check(who));
  }

  lemma LeadsFinish(now: int, limit: nat, steps: seq<Step>, who: Visitor, most: nat, logged: nat, passed: nat)
    requires Leads(now, limit, steps, who, most, logged, passed + 1) && passed < most
    ensures Leads(now, limit, steps + [Finish(who, Ok)], who, most, logged + 1, passed)
  {
    RunSnoc(Start(now), limit, steps, Finish(who, Ok));
    FinishAt(Run(Start(now), limit, steps), now, limit, who, logged, passed);
    InFlightSnoc(Start(now), limit, steps, who, most, Finish(who, Ok));
  }

  /** All but one of the allowed searches, in turn. */
  lemma {:induction false} InTurn(now: int, limit: nat, who: Visitor, most: nat, n: nat) returns (steps: seq<Step>)
    requires n < limit && most >= 1
    ensures Leads(now, limit, steps, who, most, n, 0)
  {
    if n == 0 {
      steps := [];
    } else {
      var before := InTurn(now, limit, who, most, n - 1);
      LeadsCheck(now, limit, before, who, most, n - 1, 0);
      LeadsFinish(now, limit, before + [Check(who)], who, most, n - 1, 0);
      steps := before + [Check(who)] + [Finish(who, Ok)];
    }
  }

  /** Then `n` checked before any of them is logged. */
  lemma {:induction false} Together(now: int, limit: nat, who: Visitor, most: nat, n: nat) returns (steps: seq<Step>)
    requires limit >= 1 && most >= 1 && n <= most
    ensures Leads(now, limit, steps, who, most, limit - 1, n)
  {
    if n == 0 {
      steps := InTurn(now, limit, who, most, limit - 1);
    } else {
      var before := Together(now, limit, who, most, n - 1);
      LeadsCheck(now, limit, before, who, most, limit - 1, n - 1);
      steps := before + [Check(who)];
    }
  }

  lemma {:induction false} ThenLogged(now: int, limit: nat, who: Visitor, most: nat, n: nat) returns (steps: seq<Step>)
    requires limit >= 1 && most >= 1 && n <= most
    ensures Leads(now, limit, steps, who, most, limit - 1 + n, most - n)
  {
    if n == 0 {
      steps := Together(now, limit, who, most, most);
    } else {
      var before := ThenLogged(now, limit, who, most, n - 1);
      LeadsFinish(now, limit, before, who, most, limit - 1 + n - 1, most - n);
      steps := before + [Finish(who, Ok)];
    }
  }

  /** For every limit and every number of simultaneous requests some run reaches the bound exactly. */
  lemma BoundIsMet(who: Visitor, now: int, limit: nat, most: nat) returns (steps: seq<Step>)
    requires limit >= 1 && most >= 1
    ensures InFlightAtMost(Start(now), limit, steps, who, most)
    ensures |SearchesIn(Run(Start(now), limit, steps).logs, who, now)| == limit - 1 + most
  {
    steps := ThenLogged(now, limit, who, most, most);
    InHourIs(Run(Start(now), limit, steps).logs, who, now);
  }
}
