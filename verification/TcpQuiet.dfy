/** What the background passes of the TCP driver alone do to a socket: with no answer from
    the other side, connections that are half set up or being taken down are given up. */
module TcpQuiet {
  import opened TcpModel
  import opened TcpRuns

  /** A connection that the other side is setting up, or that is being taken down. */
  predicate Dying(s: Socket) {
    s.state == SynRequestReceived || s.state == FinWait1 || s.state == LastAckSent || s.state == Closing
  }

  /** Back in LISTEN for a server, closed for a client. */
  predicate AtRest(s: Socket) {
    s.state == if s.server then Listen else Closed
  }

  /** One pass of process_tcp. */
  datatype Tick = Tick(env: seq<Env>, now: DWord)

  predicate Sized(ticks: seq<Tick>) {
    forall t <- ticks :: |t.env| == SOCKETS
  }

  predicate NicOk(env: seq<Env>) {
    forall e <- env :: e.nicOk
  }

  /** The NIC can transmit whenever the passes ask whether it can. */
  predicate NicAble(ticks: seq<Tick>) {
    forall t <- ticks :: NicOk(t.env)
  }

  function OnePass(st: Stack, tick: Tick): (r: Stack)
    requires |st.socket| == |tick.env|
    ensures |r.socket| == |st.socket|
  {
    Pass(st, 0, NONE, tick.env, tick.now)
  }

  function Passes(st: Stack, ticks: seq<Tick>): (r: Stack)
    requires |st.socket| == SOCKETS && Sized(ticks)
    ensures |r.socket| == SOCKETS
    decreases |ticks|
  {
    if ticks == [] then st else Passes(OnePass(st, ticks[0]), ticks[1..])
  }

  /** A pass finds that the socket has timed out. */
  predicate Expires(s: Socket, now: DWord) {
    s.state != Closed && s.state != Listen && s.rxRemaining == 0 && !s.sendWaiting && TimedOut(s, now)
  }

  /** The number of timeouts of socket i in the passes. */
  function Timeouts(st: Stack, i: nat, ticks: seq<Tick>): nat
    requires i < SOCKETS == |st.socket| && Sized(ticks)
    decreases |ticks|
  {
    if ticks == [] then 0
    else (if Expires(st.socket[i], ticks[0].now) then 1 else 0) + Timeouts(OnePass(st, ticks[0]), i, ticks[1..])
  }

  /** The number of timeouts after which a dying socket is given up. */
  function Left(s: Socket): nat {
    if AtRest(s) then 0 else if s.retryCount < MAX_RETRIES then MAX_RETRIES + 1 - s.retryCount else 1
  }

  // ----- one pass -----

  /** A command or a response leaves alone what the timeouts depend on. */
  predicate SameCore(s: Socket, t: Socket) {
    && t.state == s.state && t.server == s.server && t.retryCount == s.retryCount && t.rxRemaining == s.rxRemaining
    && t.startTime == s.startTime && t.timeOut == s.timeOut
  }

  lemma SendCore(st: Stack, i: nat, j: nat, flags: Flags, canSend: bool)
    requires i < |st.socket| && j < |st.socket|
    ensures var s, t := st.socket[i], SendCommand(st, j, flags, canSend).socket[i];
      if i == j then SameCore(s, t) && t.sendWaiting == (!canSend) else t == s
  {
  }

  lemma RespondCore(st: Stack, i: nat, j: nat, flags: Flags, canReply: bool)
    requires i < |st.socket| && j < |st.socket|
    ensures var s, t := st.socket[i], Respond(st, j, flags, canReply).socket[i];
      if i == j then SameCore(s, t) && (flags != NONE && canReply ==> !t.sendWaiting) else t == s
  {
    SendCore(st, i, j, flags, canReply);
  }

  lemma SynRequestOther(st: Stack, i: nat, j: nat, now: DWord, canSend: bool)
    requires i < |st.socket| && j < |st.socket|
    ensures i != j ==> SynRequest(st, j, now, canSend).socket[i] == st.socket[i]
    ensures i == j ==> SynRequest(st, j, now, canSend).socket[i].state == SynRequestSent
  {
    SendCore(st, i, j, SYN, canSend);
  }

  lemma ExpireOther(st: Stack, i: nat, j: nat, flags: Flags, env: Env, now: DWord)
    requires i < |st.socket| && j < |st.socket| && i != j
    ensures Expire(st, j, flags, env, now).st.socket[i] == st.socket[i]
  {
    var (s1, flags1) := Retry(Restarted(st.socket[j], now), flags);
    RespondCore(With(st, j, s1), i, j, flags1, env.canReply);
  }

  lemma OtherSocket(st: Stack, i: nat, j: nat, flags: Flags, env: Env, now: DWord)
    requires i < |st.socket| && j < |st.socket| && i != j
    ensures ProcessSocket(st, j, flags, env, now).st.socket[i] == st.socket[i]
  {
    var s := st.socket[j];
    ExpireOther(st, i, j, flags, env, now);
    SendCore(st, i, j, s.waitingFlags, env.canSend);
    var st1 := With(st, j, s.(remote := s.remote.(mac := env.arpAnswer)));
    SynRequestOther(st1, i, j, now, env.canSend);
    ExpireOther(SynRequest(st1, j, now, env.canSend), i, j, flags, env, now);
  }

  lemma {:induction false} PassedSocket(st: Stack, i: nat, k: nat, flags: Flags, env: seq<Env>, now: DWord)
    requires i < k <= |st.socket| == |env|
    ensures Pass(st, k, flags, env, now).socket[i] == st.socket[i]
    decreases |env| - k
  {
    if k < |env| {
      OtherSocket(st, i, k, flags, env[k], now);
      var t := ProcessSocket(st, k, flags, env[k], now);
      if t.goesOn {
        PassedSocket(t.st, i, k + 1, t.flags, env, now);
      }
    }
  }

  /** What a pass makes of socket i is its own turn, with some flags left from the sockets
      before, unless the pass ends early for want of the NIC. */
  lemma {:induction false} PassIsTurn(st: Stack, i: nat, k: nat, flags: Flags, env: seq<Env>, now: DWord) returns (st1: Stack, f: Flags)
    requires k <= i < |st.socket| == |env|
    ensures |st1.socket| == |st.socket| && st1.socket[i] == st.socket[i]
    ensures Pass(st, k, flags, env, now).socket[i] == ProcessSocket(st1, i, f, env[i], now).st.socket[i]
      || (!NicOk(env) && Pass(st, k, flags, env, now).socket[i] == st.socket[i])
    decreases i - k
  {
    st1, f := st, flags;
    var t := ProcessSocket(st, k, flags, env[k], now);
    if k < i {
      OtherSocket(st, i, k, flags, env[k], now);
      if t.goesOn {
        st1, f := PassIsTurn(t.st, i, k + 1, t.flags, env, now);
      } else {
        assert !env[k].nicOk;
      }
    } else if t.goesOn {
      PassedSocket(t.st, i, i + 1, t.flags, env, now);
    }
  }

  /** The turn of a dying socket t with no unread data, from s. */
  predicate QuietTurn(s: Socket, t: Socket, env: Env, now: DWord) {
    && t.server == s.server && t.rxRemaining == 0
    && if s.sendWaiting then
         && t.state == s.state && t.retryCount == s.retryCount && t.startTime == s.startTime && t.timeOut == s.timeOut
         && (env.canSend ==> !t.sendWaiting)
       else if !TimedOut(s, now) then
         t == s
       else if s.retryCount >= MAX_RETRIES then
         AtRest(t)
       else
         && t.state == s.state && t.retryCount == s.retryCount + 1 && t.startTime == now && t.timeOut == Doubled(s.timeOut)
         && (env.canReply ==> !t.sendWaiting)
  }

  lemma RetryCore(s: Socket, flags: Flags)
    requires Dying(s)
    ensures var (t, f) := Retry(s, flags);
      if s.retryCount <= MAX_RETRIES then t == s && f != NONE else t == Shut(s)
  {
  }

  lemma ExpireIsQuiet(st: Stack, i: nat, flags: Flags, env: Env, now: DWord)
    requires i < |st.socket| && env.nicOk
    requires var s := st.socket[i]; Dying(s) && s.rxRemaining == 0 && s.retryCount <= MAX_RETRIES + 1 && !s.sendWaiting
    ensures QuietTurn(st.socket[i], Expire(st, i, flags, env, now).st.socket[i], env, now)
  {
    var s1 := Restarted(st.socket[i], now);
    RetryCore(s1, flags);
    var (s2, flags2) := Retry(s1, flags);
    RespondCore(With(st, i, s2), i, i, flags2, env.canReply);
    if TimedOut(st.socket[i], now) {
      assert Expire(st, i, flags, env, now).st == Respond(With(st, i, s2), i, flags2, env.canReply);
    }
  }

  lemma TurnIsQuiet(st: Stack, i: nat, flags: Flags, env: Env, now: DWord)
    requires i < |st.socket| && env.nicOk
    requires Dying(st.socket[i]) && st.socket[i].rxRemaining == 0 && st.socket[i].retryCount <= MAX_RETRIES + 1
    ensures QuietTurn(st.socket[i], ProcessSocket(st, i, flags, env, now).st.socket[i], env, now)
  {
    if st.socket[i].sendWaiting {
      SendCore(st, i, i, st.socket[i].waitingFlags, env.canSend);
    } else {
      ExpireIsQuiet(st, i, flags, env, now);
    }
  }

  lemma PassIsQuiet(st: Stack, i: nat, tick: Tick)
    requires i < |st.socket| == |tick.env| && NicOk(tick.env)
    requires Dying(st.socket[i]) && st.socket[i].rxRemaining == 0 && st.socket[i].retryCount <= MAX_RETRIES + 1
    ensures QuietTurn(st.socket[i], OnePass(st, tick).socket[i], tick.env[i], tick.now)
  {
    var st1, f := PassIsTurn(st, i, 0, NONE, tick.env, tick.now);
    TurnIsQuiet(st1, i, f, tick.env[i], tick.now);
  }

  lemma RestIsLeftAlone(st: Stack, i: nat, tick: Tick)
    requires i < |st.socket| == |tick.env| && AtRest(st.socket[i])
    ensures OnePass(st, tick).socket[i] == st.socket[i]
  {
    var st1, f := PassIsTurn(st, i, 0, NONE, tick.env, tick.now);
  }

  // ----- the timeouts of a dying socket -----

  /** Every timeout brings a dying socket one step nearer to its end, and nothing else
      does: after n timeouts, Left is n less. */
  lemma {:induction false} TimeoutsCount(st: Stack, i: nat, ticks: seq<Tick>)
    requires i < SOCKETS == |st.socket| && Sized(ticks) && NicAble(ticks)
    requires var s := st.socket[i]; AtRest(s) || (Dying(s) && s.retryCount <= MAX_RETRIES + 1)
    requires st.socket[i].rxRemaining == 0
    ensures var s := Passes(st, ticks).socket[i];
      && (AtRest(s) || Dying(s))
      && s.server == st.socket[i].server
      && Left(s) == Left(st.socket[i]) - Timeouts(st, i, ticks)
    decreases |ticks|
  {
    if ticks != [] {
      var s, st1 := st.socket[i], OnePass(st, ticks[0]);
      assert ticks[0] in ticks;
      if AtRest(s) {
        RestIsLeftAlone(st, i, ticks[0]);
      } else {
        PassIsQuiet(st, i, ticks[0]);
      }
      TimeoutsCount(st1, i, ticks[1..]);
    }
  }

  /** In any reachable state, with the NIC able to send and nothing received: a dying
      socket has at most TCP_MAX_NUM_OF_RETRIES + 1 timeouts, and it is at rest exactly
      when it has had all it is allowed. */
  lemma DyingSocketsAreGivenUp(st: Stack, i: nat, ticks: seq<Tick>)
    requires Inv(st) && i < SOCKETS && Sized(ticks) && NicAble(ticks)
    requires Dying(st.socket[i]) && st.socket[i].rxRemaining == 0
    ensures Timeouts(st, i, ticks) <= MAX_RETRIES + 1
    ensures AtRest(Passes(st, ticks).socket[i]) <==> Timeouts(st, i, ticks) == Left(st.socket[i])
    ensures Timeouts(st, i, ticks) == MAX_RETRIES + 1 ==> AtRest(Passes(st, ticks).socket[i])
  {
    assert Legal(st.socket[i]);
    TimeoutsCount(st, i, ticks);
  }

  // ----- how long it takes -----

  /** Each pass comes more than the longest timeout after the one before. */
  predicate Spaced(since: DWord, ticks: seq<Tick>)
    decreases |ticks|
  {
    ticks != [] ==> Apart(since, ticks[0].now) && Spaced(ticks[0].now, ticks[1..])
  }

  predicate Apart(a: DWord, b: DWord) {
    MAX_TIMEOUT < Wrap32(b - a) < 0x8000_0000
  }

  /** Later than the longest timeout, though perhaps by more than half of the clock's range. */
  predicate Overdue(a: DWord, b: DWord) {
    Wrap32(b - a) > MAX_TIMEOUT
  }

  predicate Sends(env: seq<Env>) {
    forall e <- env :: e.nicOk && e.canSend && e.canReply
  }

  predicate AlwaysSends(ticks: seq<Tick>) {
    forall t <- ticks :: Sends(t.env)
  }

  lemma {:induction false} OverdueCloses(st: Stack, i: nat, ticks: seq<Tick>)
    requires i < SOCKETS == |st.socket| && Sized(ticks) && AlwaysSends(ticks)
    requires var s := st.socket[i]; AtRest(s) || (Dying(s) && s.retryCount <= MAX_RETRIES + 1 && !s.sendWaiting && s.timeOut <= MAX_TIMEOUT)
    requires st.socket[i].rxRemaining == 0
    requires ticks != [] ==> Overdue(st.socket[i].startTime, ticks[0].now) && Spaced(ticks[0].now, ticks[1..])
    requires |ticks| >= Left(st.socket[i])
    ensures AtRest(Passes(st, ticks).socket[i])
    decreases |ticks|
  {
    if ticks != [] {
      var s, st1 := st.socket[i], OnePass(st, ticks[0]);
      assert ticks[0] in ticks && Sends(ticks[0].env) && ticks[0].env[i] in ticks[0].env;
      if AtRest(s) {
        RestStays(st, i, ticks);
      } else {
        PassIsQuiet(st, i, ticks[0]);
        if AtRest(st1.socket[i]) {
          RestStays(st1, i, ticks[1..]);
        } else {
          OverdueCloses(st1, i, ticks[1..]);
        }
      }
    }
  }

  lemma {:induction false} RestStays(st: Stack, i: nat, ticks: seq<Tick>)
    requires i < SOCKETS == |st.socket| && Sized(ticks) && AtRest(st.socket[i])
    ensures Passes(st, ticks).socket[i] == st.socket[i]
    decreases |ticks|
  {
    if ticks != [] {
      assert ticks[0] in ticks;
      RestIsLeftAlone(st, i, ticks[0]);
      RestStays(OnePass(st, ticks[0]), i, ticks[1..]);
    }
  }

  lemma LongGaps(a: DWord, b: DWord, c: DWord)
    requires Apart(a, b) && Apart(b, c)
    ensures Overdue(a, c)
  {
  }

  lemma SecondIsOverdue(since: DWord, ticks: seq<Tick>)
    requires |ticks| >= 2 && Spaced(since, ticks)
    ensures Overdue(since, ticks[1].now) && Spaced(ticks[1].now, ticks[1..][1..])
  {
    assert Apart(since, ticks[0].now) && Spaced(ticks[0].now, ticks[1..]);
    assert ticks[1..][0] == ticks[1];
    LongGaps(since, ticks[0].now, ticks[1].now);
  }

  /** The first pass sends the command that waits, and changes nothing else. */
  lemma FirstSends(st: Stack, i: nat, tick: Tick, ticks: seq<Tick>)
    requires i < SOCKETS == |st.socket| && tick in ticks && Sized(ticks) && AlwaysSends(ticks)
    requires var s := st.socket[i]; Dying(s) && s.rxRemaining == 0 && s.retryCount <= MAX_RETRIES + 1 && s.sendWaiting
    ensures SameCore(st.socket[i], OnePass(st, tick).socket[i]) && !OnePass(st, tick).socket[i].sendWaiting
  {
    assert Sends(tick.env) && tick.env[i] in tick.env;
    PassIsQuiet(st, i, tick);
  }

  lemma SpacedCloses(st: Stack, i: nat, ticks: seq<Tick>)
    requires i < SOCKETS == |st.socket| && Sized(ticks) && AlwaysSends(ticks)
    requires var s := st.socket[i]; Dying(s) && s.rxRemaining == 0 && s.retryCount <= MAX_RETRIES + 1 && s.timeOut <= MAX_TIMEOUT
    requires |ticks| > Left(st.socket[i]) && Spaced(st.socket[i].startTime, ticks)
    ensures AtRest(Passes(st, ticks).socket[i])
  {
    if st.socket[i].sendWaiting {
      var st1, rest := OnePass(st, ticks[0]), ticks[1..];
      FirstSends(st, i, ticks[0], ticks);
      SecondIsOverdue(st.socket[i].startTime, ticks);
      OverdueCloses(st1, i, rest);
      assert Passes(st, ticks) == Passes(st1, rest);
    } else {
      OverdueCloses(st, i, ticks);
    }
  }

  /** Five passes far enough apart end every dying connection: one may be needed to send a
      command that still waits, and four more for the timeouts. */
  lemma FivePassesClose(st: Stack, i: nat, ticks: seq<Tick>)
    requires Inv(st) && i < SOCKETS && Dying(st.socket[i]) && st.socket[i].rxRemaining == 0
    requires |ticks| >= 5 && Sized(ticks) && AlwaysSends(ticks) && Spaced(st.socket[i].startTime, ticks)
    ensures AtRest(Passes(st, ticks).socket[i])
  {
    assert Legal(st.socket[i]);
    SpacedCloses(st, i, ticks);
  }

  // ----- how long it takes, however often the passes come -----

  /** The passes come at the times `at`, none more than gap after the one before, the first
      not more than gap after `since`. */
  predicate Timed(ticks: seq<Tick>, at: seq<nat>, since: nat, gap: nat)
    decreases |ticks|
  {
    && |at| == |ticks|
    && (ticks != [] ==> since <= at[0] <= since + gap && ticks[0].now == Wrap32(at[0]) && Timed(ticks[1..], at[1..], at[0], gap))
  }

  function End(at: seq<nat>, since: nat): nat {
    if at == [] then since else at[|at| - 1]
  }

  /** After the first of so many timeouts, the others take no longer than this. */
  function Others(left: nat, gap: nat): nat {
    if left <= 1 then 0 else MAX_TIMEOUT + gap + Others(left - 1, gap)
  }

  /** The time by which the timer that was started at `start` has surely run out. */
  function RunOut(start: nat, since: nat): nat {
    if start + MAX_TIMEOUT > since then start + MAX_TIMEOUT else since
  }

  /** The timer of the socket was started at `start`, and no clock comparison wraps. */
  predicate Timing(s: Socket, start: nat, since: nat, gap: nat) {
    && Dying(s) && s.retryCount <= MAX_RETRIES + 1 && s.timeOut <= MAX_TIMEOUT
    && start <= since && s.startTime == Wrap32(start)
    && RunOut(start, since) + (if s.sendWaiting then 2 * gap else gap) < start + 0x1_0000_0000
  }

  /** By then the socket is given up, if nothing is received. */
  function Deadline(s: Socket, start: nat, since: nat, gap: nat): nat {
    RunOut(start, since) + Others(Left(s), gap) + if s.sendWaiting then gap else 0
  }

  lemma Elapsed(start: nat, now: nat)
    requires start <= now < start + 0x1_0000_0000
    ensures Wrap32(Wrap32(now) - Wrap32(start)) == now - start
  {
  }

  /** The turn of a socket in time: its deadline does not move away. */
  lemma TurnInTime(s: Socket, t: Socket, env: Env, start: nat, since: nat, now: nat, gap: nat) returns (start': nat)
    requires Timing(s, start, since, gap) && since <= now <= since + gap
    requires QuietTurn(s, t, env, Wrap32(now)) && env.canSend && env.canReply
    ensures AtRest(t) || (Timing(t, start', now, gap) && Deadline(t, start', now, gap) <= Deadline(s, start, since, gap))
  {
    start' := start;
    Elapsed(start, now);
    if !s.sendWaiting && TimedOut(s, Wrap32(now)) {
      start' := now;
    }
  }

  lemma {:induction false} InTimeCloses(st: Stack, i: nat, ticks: seq<Tick>, at: seq<nat>, start: nat, since: nat, gap: nat)
    requires i < SOCKETS == |st.socket| && Sized(ticks) && AlwaysSends(ticks) && st.socket[i].rxRemaining == 0
    requires Timed(ticks, at, since, gap)
    requires AtRest(st.socket[i])
      || (Timing(st.socket[i], start, since, gap) && End(at, since) > Deadline(st.socket[i], start, since, gap))
    ensures AtRest(Passes(st, ticks).socket[i])
    decreases |ticks|
  {
    if AtRest(st.socket[i]) {
      RestStays(st, i, ticks);
    } else {
      assert ticks[0] in ticks && Sends(ticks[0].env) && ticks[0].env[i] in ticks[0].env;
      PassIsQuiet(st, i, ticks[0]);
      var st1 := OnePass(st, ticks[0]);
      var start' := TurnInTime(st.socket[i], st1.socket[i], ticks[0].env[i], start, since, at[0], gap);
      InTimeCloses(st1, i, ticks[1..], at[1..], start', at[0], gap);
    }
  }

  /** With passes at any times not more than `gap` apart, a dying connection ends within
      four longest timeouts and four gaps, if the NIC can send and nothing is received. */
  lemma GivenUpInTime(st: Stack, i: nat, ticks: seq<Tick>, at: seq<nat>, start: nat, since: nat, gap: nat)
    requires Inv(st) && i < SOCKETS && Dying(st.socket[i]) && st.socket[i].rxRemaining == 0
    requires Sized(ticks) && AlwaysSends(ticks) && Timed(ticks, at, since, gap)
    requires start <= since && st.socket[i].startTime == Wrap32(start) && since + MAX_TIMEOUT + 2 * gap < start + 0x1_0000_0000
    requires End(at, since) > since + 4 * MAX_TIMEOUT + 4 * gap
    ensures AtRest(Passes(st, ticks).socket[i])
  {
    assert Legal(st.socket[i]);
    OthersFew(Left(st.socket[i]), gap);
    InTimeCloses(st, i, ticks, at, start, since, gap);
  }

  lemma OthersFew(left: nat, gap: nat)
    requires left <= 4
    ensures Others(left, gap) <= 3 * MAX_TIMEOUT + 3 * gap
  {
    assert Others(2, gap) == MAX_TIMEOUT + gap && Others(3, gap) == 2 * MAX_TIMEOUT + 2 * gap;
  }

  // ----- connecting never gives up -----

  lemma TurnKeepsTrying(st: Stack, i: nat, flags: Flags, env: Env, now: DWord)
    requires i < |st.socket| && st.socket[i].state == SynRequestSent
    ensures ProcessSocket(st, i, flags, env, now).st.socket[i].state == SynRequestSent
  {
    SendCore(st, i, i, st.socket[i].waitingFlags, env.canSend);
    var (s1, flags1) := Retry(Restarted(st.socket[i], now), flags);
    RespondCore(With(st, i, s1), i, i, flags1, env.canReply);
  }

  /** A SYN request is repeated until the application closes the socket: no number of
      passes without an answer changes the state. */
  lemma {:induction false} ConnectingGoesOn(st: Stack, i: nat, ticks: seq<Tick>)
    requires i < SOCKETS == |st.socket| && Sized(ticks) && st.socket[i].state == SynRequestSent
    ensures Passes(st, ticks).socket[i].state == SynRequestSent
    decreases |ticks|
  {
    if ticks != [] {
      assert ticks[0] in ticks;
      var st1, f := PassIsTurn(st, i, 0, NONE, ticks[0].env, ticks[0].now);
      TurnKeepsTrying(st1, i, f, ticks[0].env[i], ticks[0].now);
      ConnectingGoesOn(OnePass(st, ticks[0]), i, ticks[1..]);
    }
  }
}
