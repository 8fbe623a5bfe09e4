/** Answering heartbeats (`receive_udp_transaction` of `bpalogin/transaction.c`, `handle_heartbeats`
    and the end of `login` of `bpalogin/protocol.c`). The world is a sequence of events with the
    times that the calls of time() return.
 */
module LHeartbeat {
  import opened LTransaction

  const T_MSG_STATUS_REQ: Int2 := 11
  const DISCARDED: Int2 := 0xfffd

  datatype Event =
    | Closed                                // select or recvfrom fails
    | Silence(at: int, again: bool)         // no datagram for `maxheartbeat` seconds; does the login succeed?
    | Datagram(at: int, stored: int, replied: int, known: bool, msgtype: Int2, length: nat)

  function Ended(e: Event, now: int): int {
    match e
    case Closed => now
    case Silence(at, _) => at
    case Datagram(_, _, replied, _, _, _) => replied
  }

  // The clock does not go back, and a timeout takes its time
  predicate Timely(e: Event, now: int, maxheartbeat: int) {
    match e
    case Closed => true
    case Silence(at, _) => now + maxheartbeat <= at
    case Datagram(at, stored, replied, _, _, _) => now <= at <= stored <= replied
  }

  predicate AllTimely(events: seq<Event>, now: int, maxheartbeat: int) {
    events == [] ||
    (Timely(events[0], now, maxheartbeat) && AllTimely(events[1..], Ended(events[0], now), maxheartbeat))
  }

  ghost predicate Monotone(times: seq<int>) {
    forall i, j | 0 <= i < j < |times| :: times[i] <= times[j]
  }

  // Any five in a row take at least `n` seconds
  ghost predicate Spaced(times: seq<int>, n: int) {
    forall i | 0 <= i && i + 4 < |times| :: times[i] + n <= times[i + 4]
  }

  // What one event does: to the limiter, to the datagrams that have passed, to the answers
  datatype Track = Track(last: int, recent: int, passed: seq<int>, answers: seq<Int4>)

  function After(t: Track, e: Event, minheartbeat: int): Track {
    match e
    case Closed => t
    case Silence(at, again) => if again then Track(at, 0, t.passed, []) else t
    case Datagram(at, stored, replied, known, msgtype, length) =>
      var quick := t.last + minheartbeat > at;
      var pass := !quick || t.recent < 3;
      var good := pass && known && msgtype == T_MSG_STATUS_REQ && length == 8;
      Track(
        if good then replied else if pass then stored else t.last,
        if quick then t.recent + 1 else 0,
        t.passed + if pass then [at] else [],
        t.answers + if good then [(|t.answers| + 1) % 0x1_0000_0000] else [])
  }

  lemma AfterLogin(t: Track, at: int, minheartbeat: int)
    ensures After(t, Silence(at, true), minheartbeat) == Track(at, 0, t.passed, [])
  {
  }

  // The socket is closed, or a login fails
  predicate Stops(e: Event) {
    e.Closed? || (e.Silence? && !e.again)
  }

  function RunAll(t: Track, events: seq<Event>, minheartbeat: int): Track
    decreases |events|
  {
    if events == [] || Stops(events[0]) then t
    else RunAll(After(t, events[0], minheartbeat), events[1..], minheartbeat)
  }

  lemma RunOne(t: Track, e: Event, events: seq<Event>, minheartbeat: int)
    requires !Stops(e)
    ensures RunAll(t, [e] + events, minheartbeat) == RunAll(After(t, e, minheartbeat), events, minheartbeat)
  {
    assert ([e] + events)[1..] == events;
  }

  // Five is as far as it goes: four datagrams may pass in the same second, and the next does not
  lemma FourMayPass()
    ensures var d := Datagram(10, 10, 10, true, T_MSG_STATUS_REQ, 8);
      RunAll(Track(0, 0, [], []), [d] + ([d] + ([d] + ([d] + ([d] + [])))), 10)
        == Track(10, 4, [10, 10, 10, 10], [1, 2, 3, 4])
  {
    var d := Datagram(10, 10, 10, true, T_MSG_STATUS_REQ, 8);
    var t0, t1, t2 := Track(0, 0, [], []), Track(10, 0, [10], [1]), Track(10, 1, [10, 10], [1, 2]);
    var t3, t4, t5 := Track(10, 2, [10, 10, 10], [1, 2, 3]), Track(10, 3, [10, 10, 10, 10], [1, 2, 3, 4]),
      Track(10, 4, [10, 10, 10, 10], [1, 2, 3, 4]);
    FirstSteps(d);
    LastSteps(d);
    hide After, RunAll;
    RunOne(t0, d, [d] + ([d] + ([d] + ([d] + []))), 10);
    RunOne(t1, d, [d] + ([d] + ([d] + [])), 10);
    RunOne(t2, d, [d] + ([d] + []), 10);
    RunOne(t3, d, [d] + [], 10);
    RunOne(t4, d, [], 10);
    RunNone(t5, 10);
  }

  lemma FirstSteps(d: Event)
    requires d == Datagram(10, 10, 10, true, T_MSG_STATUS_REQ, 8)
    ensures After(Track(0, 0, [], []), d, 10) == Track(10, 0, [10], [1])
    ensures After(Track(10, 0, [10], [1]), d, 10) == Track(10, 1, [10, 10], [1, 2])
    ensures After(Track(10, 1, [10, 10], [1, 2]), d, 10) == Track(10, 2, [10, 10, 10], [1, 2, 3])
  {
  }

  lemma LastSteps(d: Event)
    requires d == Datagram(10, 10, 10, true, T_MSG_STATUS_REQ, 8)
    ensures After(Track(10, 2, [10, 10, 10], [1, 2, 3]), d, 10) == Track(10, 3, [10, 10, 10, 10], [1, 2, 3, 4])
    ensures After(Track(10, 3, [10, 10, 10, 10], [1, 2, 3, 4]), d, 10) == Track(10, 4, [10, 10, 10, 10], [1, 2, 3, 4])
  {
  }

  lemma RunNone(t: Track, minheartbeat: int)
    ensures RunAll(t, [], minheartbeat) == t
  {
  }

  ghost predicate Runs(passed: seq<int>, batch: nat, recenthb: int, last: int, n: int) {
    && 0 <= recenthb && Monotone(passed) && Spaced(passed, n)
    && (passed != [] ==> passed[|passed| - 1] <= last)
    && batch <= |passed| <= batch + recenthb + 1
    && (0 < batch < |passed| ==> passed[batch - 1] + n <= passed[batch])
    && (0 < batch == |passed| ==> passed[batch - 1] + n <= last)
  }

  // A slow datagram starts a new run
  lemma PassSlow(passed: seq<int>, batch: nat, recenthb: int, last: int, n: int, at: int, stored: int)
    requires Runs(passed, batch, recenthb, last, n) && 0 <= n && last + n <= at <= stored
    ensures Runs(passed + [at], |passed|, 0, stored, n)
  {
  }

  // A quick one is at most the fourth of its run, so five in a row reach back before the run
  lemma PassQuick(passed: seq<int>, batch: nat, recenthb: int, last: int, n: int, at: int, stored: int)
    requires Runs(passed, batch, recenthb, last, n) && recenthb < 3 && last <= at <= stored
    ensures Runs(passed + [at], batch, recenthb + 1, stored, n)
  {
  }

  // Nothing passes, or only the time does
  lemma PassNone(passed: seq<int>, batch: nat, recenthb: int, last: int, n: int, recenthb': int, last': int)
    requires Runs(passed, batch, recenthb, last, n) && recenthb <= recenthb' && last <= last'
    ensures Runs(passed, batch, recenthb', last', n)
  {
  }

  // A login ends a run, after a pause that is long enough
  lemma PassLogin(passed: seq<int>, batch: nat, recenthb: int, last: int, n: int, at: int)
    requires Runs(passed, batch, recenthb, last, n) && last + n <= at && 0 <= n
    ensures Runs(passed, |passed|, 0, at, n)
  {
  }

  class Session {
    const minheartbeat: int
    const maxheartbeat: int
    var lastheartbeat: int
    var recenthb: int
    var sequence: Int4
    ghost var passed: seq<int>      // when datagrams have passed the limiter
    ghost var batch: nat            // where the last run of quick ones starts among them
    ghost var answers: seq<Int4>    // the sequence numbers sent since the last login
    ghost var now: int

    ghost predicate Valid()
      reads this
    {
      && Limited() && Numbered()
    }

    // The answers since the last login count from 1
    ghost predicate Numbered()
      reads `sequence, `answers
    {
      sequence == |answers| % 0x1_0000_0000 && forall i | 0 <= i < |answers| :: answers[i] == (i + 1) % 0x1_0000_0000
    }

    // Runs of quick datagrams are short, and a pause lies between them
    ghost predicate Limited()
      reads `lastheartbeat, `recenthb, `passed, `batch, `now
    {
      && 0 <= minheartbeat <= maxheartbeat && lastheartbeat <= now
      && Runs(passed, batch, recenthb, lastheartbeat, minheartbeat)
    }

    ghost function Tracked(): Track
      reads this
    {
      Track(lastheartbeat, recenthb, passed, answers)
    }

    // After a login at `at`
    constructor (minheartbeat: int, maxheartbeat: int, at: int)
      requires 0 <= minheartbeat <= maxheartbeat
      ensures Valid() && passed == [] && answers == [] && now == at
      ensures this.minheartbeat == minheartbeat && this.maxheartbeat == maxheartbeat
    {
      this.minheartbeat, this.maxheartbeat := minheartbeat, maxheartbeat;
      lastheartbeat, recenthb, sequence := at, 0, 0;
      passed, batch, answers, now := [], 0, [], at;
    }

    // The end of a successful `login`
    method LoggedIn(at: int)
      requires Valid() && now + maxheartbeat <= at
      modifies this
      ensures Valid() && now == at && Tracked() == Track(at, 0, old(passed), [])
    {
      PassLogin(passed, batch, recenthb, lastheartbeat, minheartbeat, at);
      hide Runs;
      sequence, lastheartbeat, recenthb := 0, at, 0;
      answers, batch, now := [], |passed|, at;
    }

    // `receive_udp_transaction` on one datagram: the limiter, the source, the structure
    method Receive(e: Event) returns (code: Int2)
      requires Valid() && e.Datagram? && Timely(e, now, maxheartbeat)
      modifies this`lastheartbeat, this`recenthb, this`passed, this`batch, this`now
      ensures Valid() && now == e.stored
      ensures var quick := old(lastheartbeat) + minheartbeat > e.at;
        var pass := !quick || old(recenthb) < 3;
        && recenthb == (if quick then old(recenthb) + 1 else 0)
        && lastheartbeat == (if pass then e.stored else old(lastheartbeat))
        && passed == old(passed) + (if pass then [e.at] else [])
        && code == if pass && e.known && e.msgtype == T_MSG_STATUS_REQ && e.length == 8
          then T_MSG_STATUS_REQ else DISCARDED
    {
      hide Numbered, Runs;
      now := e.stored;
      if lastheartbeat + minheartbeat > e.at {
        recenthb := recenthb + 1;
        if recenthb > 3 {
          PassNone(passed, batch, recenthb - 1, lastheartbeat, minheartbeat, recenthb, lastheartbeat);
          return DISCARDED;
        }
        PassQuick(passed, batch, recenthb - 1, lastheartbeat, minheartbeat, e.at, e.stored);
      } else {
        PassSlow(passed, batch, recenthb, lastheartbeat, minheartbeat, e.at, e.stored);
        recenthb, batch := 0, |passed|;
      }
      passed := passed + [e.at];
      lastheartbeat := e.stored;
      if !e.known {
        return DISCARDED;
      }
      if e.msgtype != T_MSG_STATUS_REQ || e.length != 8 {
        return DISCARDED;
      }
      code := e.msgtype;
    }

    // The answer to a heartbeat, with the next sequence number
    method Answer(at: int)
      requires Valid() && now <= at
      modifies this
      ensures Valid() && now == at && passed == old(passed) && batch == old(batch) && recenthb == old(recenthb)
      ensures answers == old(answers) + [(|old(answers)| + 1) % 0x1_0000_0000] && lastheartbeat == at
    {
      PassNone(passed, batch, recenthb, lastheartbeat, minheartbeat, recenthb, at);
      hide Runs;
      sequence := (sequence + 1) % 0x1_0000_0000;
      answers := answers + [sequence];
      lastheartbeat, now := at, at;
    }

    method OneDatagram(e: Event)
      requires Valid() && e.Datagram? && Timely(e, now, maxheartbeat)
      modifies this
      ensures Valid() && now == e.replied && Tracked() == After(old(Tracked()), e, minheartbeat)
    {
      hide Numbered, Runs;
      var code := Receive(e);
      if code == T_MSG_STATUS_REQ {
        Answer(e.replied);
      } else {
        now := e.replied;
      }
    }

    // `handle_heartbeats`: ends when the socket is closed or a login fails
    method HandleHeartbeats(events: seq<Event>) returns (r: int)
      requires Valid() && AllTimely(events, now, maxheartbeat)
      modifies this
      ensures Valid() && Tracked() == RunAll(old(Tracked()), events, minheartbeat)
      ensures r == 1 ==> Closed in events
    {
      hide Limited, Numbered, After;
      var i := 0;
      assert events[0..] == events;
      while i < |events|
        invariant i <= |events| && Valid() && AllTimely(events[i..], now, maxheartbeat)
        invariant RunAll(Tracked(), events[i..], minheartbeat) == RunAll(old(Tracked()), events, minheartbeat)
      {
        var e := events[i];
        assert events[i..][1..] == events[i + 1..];
        match e {
          case Closed =>
            return 1;
          case Silence(at, again) =>
            if !again {
              return 0;
            }
            ghost var t := Tracked();
            LoggedIn(at);
            AfterLogin(t, at, minheartbeat);
          case Datagram(_, _, replied, _, _, _) =>
            OneDatagram(e);
        }
        i := i + 1;
      }
      r := 0;
    }
  }
}
