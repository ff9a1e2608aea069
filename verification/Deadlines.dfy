/** When the worker wakes up, and how long a socket can go without a request being tried. */
module Deadlines {
  import opened MsgPack
  import opened Requests
  import opened RequestRuns

  // ----- One pass of the timers

  /** Settled by a pass at `now`: waiting for something later than now and not earlier than the
      pass wants to wake up. */
  predicate Waiting(p: Peer, now: nat, wake: nat) {
    p.phase != Starting && p.retryTime > now && wake <= p.retryTime
  }

  lemma TurnWaits(p: Peer, nextId: nat, issued: nat, now: nat, wake: nat, outcome: Sending)
    ensures var t := TimerTurn(p, nextId, issued, now, wake, outcome);
            && t.wake <= wake
            && (t.goOn ==> Waiting(t.peer, now, t.wake))
            && t.peer.uid == p.uid
  {
  }

  lemma {:induction false} TimersWait(w: World, k: nat, now: nat, wake: nat, sends: nat -> Sending)
    requires k <= |w.peers| && forall j :: 0 <= j < k ==> Waiting(w.peers[j], now, wake)
    ensures var p := TimersFrom(w, k, now, wake, sends);
            && p.wake <= wake
            && (p.complete ==> forall j :: 0 <= j < |p.world.peers| ==> Waiting(p.world.peers[j], now, p.wake))
    decreases |w.peers| - k
  {
    if k < |w.peers| {
      var t := TimerTurn(w.peers[k], w.nextId, w.issued, now, wake, sends(w.issued));
      TurnWaits(w.peers[k], w.nextId, w.issued, now, wake, sends(w.issued));
      hide TimerTurn;
      if t.goOn {
        TimersWait(AfterTurn(w, k, t), k + 1, now, t.wake, sends);
      }
    }
  }

  /** Whatever the sockets' times were before -- even the arbitrary ones of new sockets: the
      wait is at most a minute; after a pass that no interrupt cut short no socket is left
      starting; and the worker, if it waits at all, is up again by the earliest deadline. */
  lemma TimersWakeInTime(w: World, now: nat, later: nat, sends: nat -> Sending)
    requires now <= later
    ensures var p := Timers(w, now, sends);
            var timeout := Timeout(p, later);
            && timeout <= 60_000
            && (p.complete ==> forall k :: 0 <= k < |p.world.peers| ==>
                  && p.world.peers[k].phase != Starting
                  && p.world.peers[k].retryTime > now
                  && (timeout > 0 ==> later + timeout <= p.world.peers[k].retryTime))
  {
    TimersWait(w, 0, now, now + MAX_POLL, sends);
  }

  /** Socket j gives the time to wake up: the one it waits for, or the one that was in its memory
      while it was to start. */
  predicate WakesFor(was: seq<Peer>, peers: seq<Peer>, j: nat, wake: nat) {
    && j < |was| == |peers|
    && (wake == peers[j].retryTime || (was[j].phase == Starting && wake == was[j].retryTime))
  }

  lemma {:induction false} WakeFrom(w: World, k: nat, now: nat, wake: nat, sends: nat -> Sending) returns (j: nat)
    requires k <= |w.peers|
    ensures var p := TimersFrom(w, k, now, wake, sends);
            && (p.complete && p.wake != wake ==> WakesFor(w.peers, p.world.peers, j, p.wake) && k <= j)
            && (forall i :: 0 <= i < k ==> p.world.peers[i] == w.peers[i])
    decreases |w.peers| - k
  {
    j := k;
    if k < |w.peers| {
      var t := TimerTurn(w.peers[k], w.nextId, w.issued, now, wake, sends(w.issued));
      var w' := AfterTurn(w, k, t);
      if t.goOn {
        var i := WakeFrom(w', k + 1, now, t.wake, sends);
        var p := TimersFrom(w', k + 1, now, t.wake, sends);
        assert p.world.peers[k] == t.peer;
        hide TimersFrom;
        if p.wake != t.wake {
          j := i;
        }
      }
    }
  }

  /** And it does not wake up for nothing: a wait ends a minute after the pass began or at a time
      that one of the sockets gives, and there is no wait at all only if such a time is past or
      the pass was cut short. */
  lemma NoNeedlessWake(w: World, now: nat, later: nat, sends: nat -> Sending) returns (j: nat)
    requires now <= later
    ensures var p := Timers(w, now, sends);
            var timeout := Timeout(p, later);
            && (timeout > 0 ==> later + timeout == now + 60_000 || WakesFor(w.peers, p.world.peers, j, later + timeout))
            && (timeout == 0 && p.complete ==>
                  || now + 60_000 <= later
                  || exists time: nat :: time <= later && WakesFor(w.peers, p.world.peers, j, time))
  {
    j := WakeFrom(w, 0, now, now + MAX_POLL, sends);
    var p := Timers(w, now, sends);
    hide TimersFrom, WakesFor;
    if p.complete && p.wake != now + 60_000 && p.wake <= later {
      assert WakesFor(w.peers, p.world.peers, j, p.wake);
    }
  }

  /** A pass is cut short exactly if one of its sends is interrupted. */
  lemma {:induction false} CompleteExactly(w: World, k: nat, now: nat, wake: nat, sends: nat -> Sending)
    requires k <= |w.peers|
    ensures var p := TimersFrom(w, k, now, wake, sends);
            && w.issued <= p.world.issued
            && (p.complete <==> forall n: nat :: w.issued <= n < p.world.issued ==> sends(n) != Interrupted)
    decreases |w.peers| - k
  {
    if k < |w.peers| {
      var t := TimerTurn(w.peers[k], w.nextId, w.issued, now, wake, sends(w.issued));
      if t.goOn {
        CompleteExactly(AfterTurn(w, k, t), k + 1, now, t.wake, sends);
      }
    }
  }

  /** The pass that an interrupt cuts short at socket `at`: those before it wait for something,
      it has been tried and stays starting, and those behind it are as they were. */
  lemma {:induction false} InterruptedPassStops(w: World, k: nat, now: nat, wake: nat, sends: nat -> Sending)
    returns (at: nat)
    requires k <= |w.peers| && !TimersFrom(w, k, now, wake, sends).complete
    ensures var w' := TimersFrom(w, k, now, wake, sends).world;
            && k <= at < |w.peers|
            && (forall j :: 0 <= j < k ==> w'.peers[j] == w.peers[j])
            && (forall j :: k <= j < at ==> w'.peers[j].phase != Starting && w'.peers[j].retryTime > now)
            && w'.peers[at].phase == Starting && w'.peers[at].lastTry == now && w'.peers[at].uid == w.peers[at].uid
            && w'.peers[at + 1..] == w.peers[at + 1..]
    decreases |w.peers| - k
  {
    var t := TimerTurn(w.peers[k], w.nextId, w.issued, now, wake, sends(w.issued));
    at := k;
    if t.goOn {
      TurnWaits(w.peers[k], w.nextId, w.issued, now, wake, sends(w.issued));
      hide TimerTurn;
      at := InterruptedPassStops(AfterTurn(w, k, t), k + 1, now, t.wake, sends);
    }
  }

  // ----- Rounds of the worker loop

  /** One round: the timers at `now`, the clock at their end, and what poll brought after. */
  datatype Round = Round(now: nat, later: nat, sends: nat -> Sending, events: seq<Event>)

  const LIMIT := REQUEST_WAIT_TIME + REQUEST_AGAIN_TIME

  predicate StampedBetween(e: Event, from: nat, to: nat) {
    match e
    case Configured(_, _, _, _, now) => from <= now <= to
    case Replied(_, _, now) => from <= now <= to
    case TimersRan(_, _) => false
    case _ => true
  }

  /** The clock does not run backwards, the timers take at most `slack`, and poll and what
      follows it together exceed the returned timeout by at most `slack`. */
  ghost predicate Timely(r: Round, w: World, next: nat, slack: nat) {
    var p := Timers(w, r.now, r.sends);
    && r.now <= r.later <= r.now + slack
    && r.later <= next <= r.later + Timeout(p, r.later) + slack
    && (forall k :: 0 <= k < |r.events| ==> StampedBetween(r.events[k], r.later, next))
  }

  function AfterRound(run: Run, r: Round): Run {
    Play(Next(run, TimersRan(r.now, r.sends)), r.events)
  }

  /** How many passes in a row have been cut short after this round, if `cuts` were before. */
  function CutsAfter(w: World, r: Round, cuts: nat): nat {
    if Timers(w, r.now, r.sends).complete then 0 else cuts + 1
  }

  /** What so many cut passes in a row and the complete one before them can make a socket late. */
  function Late(slack: nat, cuts: nat): (r: nat)
    ensures r >= 2 * slack
  {
    if cuts == 0 then 2 * slack else Late(slack, cuts - 1) + 2 * slack
  }

  lemma {:induction false} LateIs(slack: nat, cuts: nat)
    ensures Late(slack, cuts) == 2 * slack * (1 + cuts)
  {
    if cuts > 0 {
      LateIs(slack, cuts - 1);
    }
  }

  lemma {:induction false} LaterStill(slack: nat, cuts: nat, most: nat)
    requires cuts <= most
    ensures Late(slack, cuts) <= Late(slack, most)
  {
    if cuts < most {
      LaterStill(slack, cuts, most - 1);
    }
  }

  /** A socket on the way from one pass to the next, which is at `next` and `late` behind the
      time it was meant for; `most` is the most that has been. */
  ghost predicate OnTime(p: Peer, next: nat, late: nat, most: nat) {
    && next <= p.lastTry + LIMIT + most + late
    && (p.phase == RequestSent ==> p.retryTime == p.lastTry + REQUEST_WAIT_TIME && next <= p.retryTime + late)
    && (p.phase == Sleeping ==> p.retryTime <= p.lastTry + LIMIT + most)
  }

  ghost predicate AllOnTime(w: World, next: nat, late: nat, most: nat) {
    forall k :: 0 <= k < |w.peers| ==> OnTime(w.peers[k], next, late, most)
  }

  /** A socket just after its turn in a pass at `now`. */
  ghost predicate Rescheduled(p: Peer, now: nat, most: nat) {
    && p.phase != Starting && p.retryTime > now
    && (p.phase == RequestSent ==> p.retryTime == p.lastTry + REQUEST_WAIT_TIME)
    && (p.phase == Sleeping ==> p.retryTime <= p.lastTry + LIMIT + most)
  }

  /** After a pass at `now`: rescheduled, unless the pass was cut short. */
  ghost predicate Passed(p: Peer, now: nat, late: nat, most: nat, complete: bool) {
    Rescheduled(p, now, most) || (!complete && OnTime(p, now, late, most))
  }

  ghost predicate AllPassed(peers: seq<Peer>, now: nat, late: nat, most: nat, complete: bool) {
    forall k :: 0 <= k < |peers| ==> Passed(peers[k], now, late, most, complete)
  }

  lemma TurnReschedules(p: Peer, nextId: nat, issued: nat, now: nat, wake: nat, outcome: Sending, late: nat, most: nat)
    requires OnTime(p, now, late, most)
    ensures var t := TimerTurn(p, nextId, issued, now, wake, outcome);
            Passed(t.peer, now, late, most, t.goOn)
  {
  }

  lemma {:induction false} TimersReschedule(w: World, k: nat, now: nat, wake: nat, sends: nat -> Sending,
                                            late: nat, most: nat)
    requires k <= |w.peers|
    requires forall j :: 0 <= j < k ==> Rescheduled(w.peers[j], now, most)
    requires forall j :: k <= j < |w.peers| ==> OnTime(w.peers[j], now, late, most)
    ensures var p := TimersFrom(w, k, now, wake, sends);
            AllPassed(p.world.peers, now, late, most, p.complete)
    decreases |w.peers| - k
  {
    if k < |w.peers| {
      var t := TimerTurn(w.peers[k], w.nextId, w.issued, now, wake, sends(w.issued));
      TurnReschedules(w.peers[k], w.nextId, w.issued, now, wake, sends(w.issued), late, most);
      hide TimerTurn;
      if t.goOn {
        TimersReschedule(AfterTurn(w, k, t), k + 1, now, t.wake, sends, late, most);
      }
    }
  }

  /** From the end of a pass to the next one. */
  lemma PassOnTime(w: World, now: nat, later: nat, sends: nat -> Sending, next: nat, slack: nat, late: nat, most: nat)
    requires AllOnTime(w, now, late, most) && now <= later <= now + slack
    requires next <= later + Timeout(Timers(w, now, sends), later) + slack
    ensures var p := Timers(w, now, sends);
            AllOnTime(p.world, next, if p.complete then 2 * slack else late + 2 * slack, most)
  {
    TimersReschedule(w, 0, now, now + MAX_POLL, sends, late, most);
    TimersWakeInTime(w, now, later, sends);
    var p := Timers(w, now, sends);
    hide TimersFrom;
    forall k | 0 <= k < |p.world.peers|
      ensures OnTime(p.world.peers[k], next, if p.complete then 2 * slack else late + 2 * slack, most)
    {
      assert Passed(p.world.peers[k], now, late, most, p.complete);
    }
  }

  lemma EventOnTime(run: Run, e: Event, from: nat, next: nat, late: nat, most: nat)
    requires AllOnTime(run.world, next, late, most)
    requires StampedBetween(e, from, next) && late <= most && next <= from + MAX_POLL + late
    ensures AllOnTime(Next(run, e).world, next, late, most)
  {
    var w := run.world;
    match e
    case Configured(no, _, _, _, _) =>
      var k := FindNo(w.peers, no);
      if k < |w.peers| {
        assert OnTime(w.peers[k], next, late, most);
      }
    case Closed(no) =>
    case Replied(id, _, _) =>
      var k := FindId(w.peers, id);
      if k < |w.peers| {
        assert OnTime(w.peers[k], next, late, most);
      }
    case Updated(uids) =>
      forall k | 0 <= k < |w.peers|
        ensures OnTime(Restarted(w.peers, uids)[k], next, late, most)
      {
        assert OnTime(w.peers[k], next, late, most);
      }
  }

  lemma {:induction false} EventsOnTime(run: Run, events: seq<Event>, from: nat, next: nat, late: nat, most: nat)
    requires AllOnTime(run.world, next, late, most) && late <= most && next <= from + MAX_POLL + late
    requires forall k :: 0 <= k < |events| ==> StampedBetween(events[k], from, next)
    ensures AllOnTime(Play(run, events).world, next, late, most)
    decreases |events|
  {
    hide AllOnTime, Next, StampedBetween;
    if events != [] {
      EventOnTime(run, events[0], from, next, late, most);
      EventsOnTime(Next(run, events[0]), events[1..], from, next, late, most);
    }
  }

  lemma RoundOnTime(run: Run, r: Round, next: nat, slack: nat, cuts: nat, most: nat)
    requires AllOnTime(run.world, r.now, Late(slack, cuts), most) && Timely(r, run.world, next, slack)
    requires Late(slack, CutsAfter(run.world, r, cuts)) <= most
    ensures AllOnTime(AfterRound(run, r).world, next, Late(slack, CutsAfter(run.world, r, cuts)), most)
  {
    hide AllOnTime, TimersFrom;
    PassOnTime(run.world, r.now, r.later, r.sends, next, slack, Late(slack, cuts), most);
    TimersWakeInTime(run.world, r.now, r.later, r.sends);
    EventsOnTime(Next(run, TimersRan(r.now, r.sends)), r.events, r.later, next,
                 Late(slack, CutsAfter(run.world, r, cuts)), most);
  }

  /** Rounds one after the other, each starting when the one before is through. */
  ghost predicate AllTimely(run: Run, rounds: seq<Round>, end: nat, slack: nat)
    decreases |rounds|
  {
    rounds == []
    || (var next := if |rounds| > 1 then rounds[1].now else end;
        Timely(rounds[0], run.world, next, slack) && AllTimely(AfterRound(run, rounds[0]), rounds[1..], end, slack))
  }

  function AfterRounds(run: Run, rounds: seq<Round>): Run
    decreases |rounds|
  {
    if rounds == [] then run else AfterRounds(AfterRound(run, rounds[0]), rounds[1..])
  }

  /** The most passes in a row that are cut short, if `cuts` in a row were before. */
  function LongestStreak(run: Run, rounds: seq<Round>, cuts: nat): (r: nat)
    ensures r >= cuts
    decreases |rounds|
  {
    if rounds == [] then cuts
    else
      var rest := LongestStreak(AfterRound(run, rounds[0]), rounds[1..], CutsAfter(run.world, rounds[0], cuts));
      if rest > cuts then rest else cuts
  }

  /** The passes in a row that were cut short last. */
  function StreakNow(run: Run, rounds: seq<Round>, cuts: nat): nat
    decreases |rounds|
  {
    if rounds == [] then cuts
    else StreakNow(AfterRound(run, rounds[0]), rounds[1..], CutsAfter(run.world, rounds[0], cuts))
  }

  lemma {:induction false} RoundsOnTime(run: Run, rounds: seq<Round>, end: nat, slack: nat, cuts: nat, streak: nat)
    requires AllTimely(run, rounds, end, slack) && LongestStreak(run, rounds, cuts) <= streak
    requires AllOnTime(run.world, if rounds == [] then end else rounds[0].now, Late(slack, cuts), Late(slack, streak))
    ensures var late := Late(slack, StreakNow(run, rounds, cuts));
            AllOnTime(AfterRounds(run, rounds).world, end, late, Late(slack, streak))
    decreases |rounds|
  {
    hide AllOnTime, Timely, AfterRound, Late, CutsAfter;
    if rounds != [] {
      var cuts' := CutsAfter(run.world, rounds[0], cuts);
      LaterStill(slack, cuts', streak);
      RoundOnTime(run, rounds[0], if |rounds| > 1 then rounds[1].now else end, slack, cuts, Late(slack, streak));
      RoundsOnTime(AfterRound(run, rounds[0]), rounds[1..], end, slack, cuts', streak);
    }
  }

  /** Over every run of the loop, however often its sends are interrupted: when the timers run
      next, no listed socket has gone without an attempt for longer than the request wait and
      the refresh interval together, give or take the time the worker itself takes, and that
      once more for each pass cut short in the longest streak of these and in the one the run
      is in. */
  lemma NoSocketStarves(id0: nat, rounds: seq<Round>, end: nat, slack: nat, k: nat)
    requires id0 < TWO31 && AllTimely(Start(id0), rounds, end, slack)
    requires k < |AfterRounds(Start(id0), rounds).world.peers|
    ensures end <= AfterRounds(Start(id0), rounds).world.peers[k].lastTry
                   + 1000 + 300_000
                   + 2 * slack * (1 + LongestStreak(Start(id0), rounds, 0))
                   + 2 * slack * (1 + StreakNow(Start(id0), rounds, 0))
  {
    var streak, now := LongestStreak(Start(id0), rounds, 0), StreakNow(Start(id0), rounds, 0);
    RoundsOnTime(Start(id0), rounds, end, slack, 0, streak);
    LateIs(slack, streak);
    LateIs(slack, now);
    hide AllTimely, LongestStreak, StreakNow, Late, AfterRounds;
    assert OnTime(AfterRounds(Start(id0), rounds).world.peers[k], end, Late(slack, now), Late(slack, streak));
  }
}
