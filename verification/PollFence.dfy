/** The deadline poll loop shared by the AWX project sync, the AWX readiness wait and the Git push.
    The environment is an arbitrary sequence of answers; the clock is an arbitrary sequence of
    readings, one after each attempt, that a sleep moves by at least the interval. */
module PollFence {
  import opened Wrappers

  /** The sleep between attempts, in seconds; all three loops use the same one. */
  const POLL_INTERVAL: real := 5.0

  datatype Answer<+V, +E> = Good(value: V) | Fatal(error: E) | Retry(error: E)

  datatype Outcome<+V, +E> =
    | Returned(attempts: nat, value: V)
    | Raised(attempts: nat, error: E)
    | TimedOut(attempts: nat, error: E)

  ghost predicate Advances(clock: nat -> real, start: real) {
    start <= clock(0) && forall i: nat :: Sleeps(clock, i)
  }

  ghost predicate Sleeps(clock: nat -> real, i: nat) { clock(i) + POLL_INTERVAL <= clock(i + 1) }

  /** The loop from attempt i on: the deadline is looked at only after a failed attempt. */
  ghost function Fence<V, E>(answers: nat -> Answer<V, E>, clock: nat -> real, start: real, deadline: real,
                             i: nat): Outcome<V, E>
    requires Advances(clock, start)
    decreases deadline - clock(i)
  {
    match answers(i)
    case Good(v) => Returned(i + 1, v)
    case Fatal(e) => Raised(i + 1, e)
    case Retry(e) =>
      assert Sleeps(clock, i);
      if deadline <= clock(i) then TimedOut(i + 1, e) else Fence(answers, clock, start, deadline, i + 1)
  }

  /** Attempt i failed in a way that lets the loop go on. */
  ghost predicate GoesOn<V, E>(answers: nat -> Answer<V, E>, clock: nat -> real, deadline: real, i: nat) {
    answers(i).Retry? && clock(i) < deadline
  }

  ghost predicate Reaches<V, E>(answers: nat -> Answer<V, E>, clock: nat -> real, deadline: real, from: nat, n: nat) {
    from <= n && forall i :: from <= i < n ==> GoesOn(answers, clock, deadline, i)
  }

  lemma {:induction false} StopOf<V, E>(
    answers: nat -> Answer<V, E>, clock: nat -> real, start: real, deadline: real, from: nat)
    returns (n: nat)
    requires Advances(clock, start)
    ensures Reaches(answers, clock, deadline, from, n) && !GoesOn(answers, clock, deadline, n)
    ensures Fence(answers, clock, start, deadline, from) == Fence(answers, clock, start, deadline, n)
    ensures Fence(answers, clock, start, deadline, from).attempts == n + 1
    decreases deadline - clock(from)
  {
    n := from;
    if GoesOn(answers, clock, deadline, from) {
      assert Sleeps(clock, from);
      n := StopOf(answers, clock, start, deadline, from + 1);
    }
  }

  /** The outcome, exactly: the loop ends at the first attempt that is good, fatal or too late,
      and it returns, raises or times out as that attempt says. */
  lemma FenceIsExact<V, E>(answers: nat -> Answer<V, E>, clock: nat -> real, start: real, deadline: real,
                           o: Outcome<V, E>)
    requires Advances(clock, start)
    ensures o == Fence(answers, clock, start, deadline, 0) <==>
            && 0 < o.attempts
            && Reaches(answers, clock, deadline, 0, o.attempts - 1)
            && match o
               case Returned(n, v) => answers(n - 1) == Good(v)
               case Raised(n, e) => answers(n - 1) == Fatal(e)
               case TimedOut(n, e) => answers(n - 1) == Retry(e) && deadline <= clock(n - 1)
  {
    var n: nat := StopOf(answers, clock, start, deadline, 0);
    if 0 < o.attempts {
      var k: nat := o.attempts - 1;
      assert k < n ==> GoesOn(answers, clock, deadline, k);
      assert n < k && Reaches(answers, clock, deadline, 0, k) ==> GoesOn(answers, clock, deadline, n);
    }
  }

  lemma {:induction false} ClockRuns(clock: nat -> real, start: real, n: nat)
    requires Advances(clock, start)
    ensures start + POLL_INTERVAL * n as real <= clock(n)
  {
    if n != 0 {
      ClockRuns(clock, start, n - 1);
      assert Sleeps(clock, n - 1);
    }
  }

  /** The loop makes at least one attempt, and exactly one when the timeout is not positive; else all
      but two of its attempts, at the five seconds between them, fit into the timeout. */
  lemma AttemptsAreBounded<V, E>(answers: nat -> Answer<V, E>, clock: nat -> real, start: real, timeout: real)
    requires Advances(clock, start)
    ensures 1 <= Fence(answers, clock, start, start + timeout, 0).attempts
    ensures 0.0 < timeout ==> (Fence(answers, clock, start, start + timeout, 0).attempts - 2) as real * 5.0 < timeout
    ensures timeout <= 0.0 ==> Fence(answers, clock, start, start + timeout, 0).attempts == 1
  {
    var n := StopOf(answers, clock, start, start + timeout, 0);
    if n != 0 {
      assert GoesOn(answers, clock, start + timeout, n - 1);
      ClockRuns(clock, start, n - 1);
    }
  }

  /** And the bound is reached: when attempts take no time and none is good or fatal, the loop times out
      only at the attempt whose sleeps fill the timeout. */
  lemma BoundIsReached<V, E>(answers: nat -> Answer<V, E>, start: real, timeout: real)
    requires 0.0 < timeout && forall i: nat :: answers(i).Retry?
    ensures var clock := (i: nat) => start + 5.0 * i as real;
            && Advances(clock, start)
            && var o := Fence(answers, clock, start, start + timeout, 0);
               o.TimedOut? && (o.attempts - 2) as real * 5.0 < timeout <= (o.attempts - 1) as real * 5.0
  {
    var clock := (i: nat) => start + 5.0 * i as real;
    forall i: nat ensures Sleeps(clock, i) { assert (i + 1) as real == i as real + 1.0; }
    var o := Fence(answers, clock, start, start + timeout, 0);
    FenceIsExact(answers, clock, start, start + timeout, o);
    AttemptsAreBounded(answers, clock, start, timeout);
  }

  /** Liveness: when nothing fatal happens and the environment is good from attempt g on and not
      before, the loop returns if attempt g is the first or the one before it met the deadline;
      otherwise it times out. */
  lemma ReturnsInTime<V, E>(answers: nat -> Answer<V, E>, clock: nat -> real, start: real, deadline: real, g: nat)
    requires Advances(clock, start)
    requires forall i :: 0 <= i < g ==> answers(i).Retry?
    requires forall i :: g <= i ==> answers(i).Good?
    ensures var o := Fence(answers, clock, start, deadline, 0);
            if g == 0 || clock(g - 1) < deadline then o == Returned(g + 1, answers(g).value) else o.TimedOut?
  {
    var n: nat := StopOf(answers, clock, start, deadline, 0);
    assert n < g ==> deadline <= clock(n) && answers(n).Retry?;
    assert g < n ==> GoesOn(answers, clock, deadline, g);
    assert n == g && 0 < g ==> GoesOn(answers, clock, deadline, g - 1);
    if n < g { ClockIsMonotone(clock, start, n, g - 1); }
  }

  lemma {:induction false} ClockIsMonotone(clock: nat -> real, start: real, i: nat, j: nat)
    requires Advances(clock, start) && i <= j
    ensures clock(i) <= clock(j)
  {
    if i < j {
      ClockIsMonotone(clock, start, i, j - 1);
      assert Sleeps(clock, j - 1);
    }
  }

  /** `int(props.get("timeout_seconds") or default)`: a missing or zero timeout is the default. */
  function TimeoutOf(configured: Option<int>, default: int): int {
    if configured.Some? && configured.value != 0 then configured.value else default
  }
}

/** The AWX project synchronisation fence. */
module ProjectSync {
  import opened Wrappers
  import opened PollFence

  const DEFAULT_TIMEOUT_SECONDS := 300

  predicate Succeeded(status: string) { status == "successful" || status == "ok" }
  predicate Failed(status: string) { status == "failed" || status == "error" || status == "canceled" }

  /** What a read of the project can give. */
  datatype Reply = HttpError(message: string) | NotAnObject | Project(scmRevision: Option<string>, status: string)

  datatype Error =
    | Http(message: string)
    | BadResponse
    | TerminalStatus(status: string)
    | NotSynced
    | UpdateRefused(code: int)

  datatype Synced = Synced(revision: string, status: string)

  predicate AtRevision(reply: Reply, expected: string) { reply.Project? && reply.scmRevision == Some(expected) }

  function Judge(expected: string, reply: Reply): Answer<Synced, Error> {
    match reply
    case HttpError(message) => Fatal(Http(message))
    case NotAnObject => Fatal(BadResponse)
    case Project(revision, status) =>
      if AtRevision(reply, expected) && Succeeded(status) then Good(Synced(expected, status))
      else if Failed(status) then Fatal(TerminalStatus(status))
      else Retry(NotSynced)
  }

  ghost function Judged(expected: string, polls: nat -> Reply): nat -> Answer<Synced, Error> {
    (i: nat) => Judge(expected, polls(i))
  }

  predicate Accepted(code: int) { code in {200, 201, 202, 204} }

  /** The AWX server as one run meets it: the first read, the answer to an update request, the
      polls, and the updates that were requested of it. */
  class Server {
    const first: Reply
    const updateCode: int
    const polls: nat -> Reply
    var updates: nat

    constructor (first: Reply, updateCode: int, polls: nat -> Reply)
      ensures updates == 0 && this.first == first && this.updateCode == updateCode && this.polls == polls
    {
      this.first, this.updateCode, this.polls, updates := first, updateCode, polls, 0;
    }
  }

  /** How the run goes before its poll loop. */
  function Opening(server: Server, expected: string): Option<Error> {
    match server.first
    case HttpError(message) => Some(Http(message))
    case NotAnObject => Some(BadResponse)
    case Project(revision, _) =>
      if revision == Some(expected) || server.updateCode in {200, 201, 202, 204} then
        None
      else
        Some(UpdateRefused(server.updateCode))
  }

  method Sync(server: Server, expected: string, configured: Option<int>, start: real, clock: nat -> real)
    returns (outcome: Outcome<Synced, Error>)
    requires Advances(clock, start)
    modifies server
    ensures outcome == if Opening(server, expected).Some? then Raised(0, Opening(server, expected).value)
                       else Fence(Judged(expected, server.polls), clock, start,
                                  start + (if configured.Some? && configured.value != 0
                                           then configured.value else 300) as real, 0)
    ensures server.updates == old(server.updates) +
              if server.first.Project? && server.first.scmRevision != Some(expected) then 1 else 0
  {
    var deadline := start + TimeoutOf(configured, DEFAULT_TIMEOUT_SECONDS) as real;
    var project := server.first;
    if project.HttpError? { return Raised(0, Http(project.message)); }
    if project.NotAnObject? { return Raised(0, BadResponse); }
    if !AtRevision(project, expected) {
      server.updates := server.updates + 1;
      if !Accepted(server.updateCode) { return Raised(0, UpdateRefused(server.updateCode)); }
    }
    var i := 0;
    ghost var answers := Judged(expected, server.polls);
    while true
      invariant Fence(answers, clock, start, deadline, 0) == Fence(answers, clock, start, deadline, i)
      invariant server.updates == old(server.updates) + if !AtRevision(server.first, expected) then 1 else 0
      decreases deadline - clock(i)
    {
      project := server.polls(i);
      assert answers(i) == Judge(expected, project);
      if project.HttpError? { return Raised(i + 1, Http(project.message)); }
      if project.NotAnObject? { return Raised(i + 1, BadResponse); }
      if AtRevision(project, expected) && Succeeded(project.status) {
        return Returned(i + 1, Synced(expected, project.status));
      }
      if Failed(project.status) { return Raised(i + 1, TerminalStatus(project.status)); }
      if deadline <= clock(i) { return TimedOut(i + 1, NotSynced); }
      assert Sleeps(clock, i);
      i := i + 1;
    }
  }

  /** A poll shows the revision in a success status. */
  predicate Done(reply: Reply, expected: string) {
    && reply.Project? && reply.scmRevision == Some(expected)
    && (reply.status == "successful" || reply.status == "ok")
  }

  predicate IsFailure(status: string) { status == "failed" || status == "error" || status == "canceled" }

  /** A sync that returns has read the expected revision in a success status, having met no
      failure status on the way. */
  lemma SyncIsSound(expected: string, polls: nat -> Reply, clock: nat -> real, start: real, deadline: real)
    requires Advances(clock, start)
    ensures var o := Fence(Judged(expected, polls), clock, start, deadline, 0);
            0 < o.attempts && (o.Returned? ==>
              && o.value.revision == expected
              && Done(polls(o.attempts - 1), expected)
              && forall i :: 0 <= i < o.attempts - 1 ==> polls(i).Project? && !IsFailure(polls(i).status))
  {
    var answers := Judged(expected, polls);
    var o := Fence(answers, clock, start, deadline, 0);
    FenceIsExact(answers, clock, start, deadline, o);
    if o.Returned? {
      assert answers(o.attempts - 1) == Judge(expected, polls(o.attempts - 1));
      forall i | 0 <= i < o.attempts - 1 ensures polls(i).Project? && !IsFailure(polls(i).status) {
        assert GoesOn(answers, clock, deadline, i);
      }
    }
  }

  /** A poll, made before the deadline, that shows neither success nor failure. */
  ghost predicate KeepsPolling(expected: string, polls: nat -> Reply, clock: nat -> real, deadline: real, i: nat) {
    polls(i).Project? && !IsFailure(polls(i).status) && !Done(polls(i), expected) && clock(i) < deadline
  }

  /** When a sync returns, and when it ends at a failure status, in terms of what the polls show: all
      polls before keep it polling. A failure status that an earlier update left behind therefore ends
      a sync which would have succeeded. */
  lemma SyncEndsExactly(expected: string, polls: nat -> Reply, clock: nat -> real, start: real, deadline: real,
                        n: nat, status: string)
    requires Advances(clock, start)
    ensures var o := Fence(Judged(expected, polls), clock, start, deadline, 0);
            && (o == Returned(n + 1, Synced(expected, status)) <==>
                  && Done(polls(n), expected) && polls(n).status == status
                  && forall i :: 0 <= i < n ==> KeepsPolling(expected, polls, clock, deadline, i))
            && (o == Raised(n + 1, TerminalStatus(status)) <==>
                  && polls(n).Project? && IsFailure(status) && polls(n).status == status
                  && forall i :: 0 <= i < n ==> KeepsPolling(expected, polls, clock, deadline, i))
  {
    var answers := Judged(expected, polls);
    FenceIsExact(answers, clock, start, deadline, Returned(n + 1, Synced(expected, status)));
    FenceIsExact(answers, clock, start, deadline, Raised(n + 1, TerminalStatus(status)));
    assert answers(n) == Judge(expected, polls(n));
    forall i: nat ensures GoesOn(answers, clock, deadline, i) <==> KeepsPolling(expected, polls, clock, deadline, i) {
      assert answers(i) == Judge(expected, polls(i));
    }
    hide Fence;
  }
}

/** The AWX API readiness fence. */
module ApiReadiness {
  import opened Wrappers
  import opened PollFence

  const DEFAULT_TIMEOUT_SECONDS := 300

  /** A capacity as it is read: a number (any positive one stands for infinity), an integer too large
      for a float, which Python refuses to convert, a text that reads as a number, or anything else. */
  datatype Capacity = Numeric(value: real) | TooLarge | NumericText(value: real) | OtherText | NotNumeric

  datatype Item = NotAMapping | Instance(nodeType: string, enabled: bool, nodeState: Option<string>, capacity: Capacity)

  datatype Payload = NotAMapping | NoResultList | Results(items: seq<Item>)

  predicate Positive(c: Capacity) {
    match c
    case Numeric(v) => 0.0 < v
    case NumericText(v) => 0.0 < v
    case _ => false
  }

  /** An enabled, ready control or hybrid node, or one of no stated type: its capacity is looked at. */
  predicate Candidate(item: Item) {
    && item.Instance?
    && (item.nodeType == "" || item.nodeType == "control" || item.nodeType == "hybrid")
    && item.enabled && item.nodeState == Some("ready")
  }

  /** An instance that can dispatch work. */
  predicate Ready(item: Item) {
    Candidate(item) && (item.capacity.Numeric? || item.capacity.NumericText?) && 0.0 < item.capacity.value
  }

  /** An instance at whose capacity the count raises. */
  predicate Overflows(item: Item) { Candidate(item) && item.capacity.TooLarge? }

  predicate PayloadOverflows(payload: Payload) {
    payload.Results? && exists item :: item in payload.items && Overflows(item)
  }

  ghost function ReadyPositions(items: seq<Item>): set<nat> { set i: nat | i < |items| && Ready(items[i]) }

  ghost function ReadyCount(payload: Payload): nat {
    if payload.Results? then |ReadyPositions(payload.items)| else 0
  }

  lemma NoneReadyYet(items: seq<Item>)
    ensures ReadyPositions(items[..0]) == {}
  {
  }

  lemma NextIsCounted(items: seq<Item>, i: nat)
    requires i < |items|
    ensures |ReadyPositions(items[..i + 1])| == |ReadyPositions(items[..i])| + if Ready(items[i]) then 1 else 0
  {
    hide Ready;
    assert ReadyPositions(items[..i + 1]) == ReadyPositions(items[..i]) + if Ready(items[i]) then {i} else {};
  }

  /** None stands for the overflow. */
  method CountReady(payload: Payload) returns (count: Option<nat>)
    ensures count == if PayloadOverflows(payload) then None else Some(ReadyCount(payload))
  {
    hide ReadyPositions;
    var ready := 0;
    if payload.Results? {
      var items := payload.items;
      NoneReadyYet(items);
      for i := 0 to |items|
        invariant ready == |ReadyPositions(items[..i])|
        invariant forall j :: 0 <= j < i ==> !Overflows(items[j])
      {
        NextIsCounted(items, i);
        var item := items[i];
        if item.NotAMapping? { continue; }
        if item.nodeType != "" && item.nodeType != "control" && item.nodeType != "hybrid" { continue; }
        if !item.enabled { continue; }
        if item.nodeState != Some("ready") { continue; }
        if item.capacity.TooLarge? { assert items[i] in items; return None; }
        if !Positive(item.capacity) { continue; }
        ready := ready + 1;
      }
      assert items[..|items|] == items;
    }
    return Some(ready);
  }

  /** One attempt: the ping and the instance list, or the request error of either. */
  datatype Probe = RequestError(message: string) | Instances(payload: Payload)

  datatype Error = Request(message: string) | NoneReady | CapacityTooLarge

  ghost function Judge(probe: Probe): Answer<nat, Error> {
    match probe
    case RequestError(message) => Retry(Request(message))
    case Instances(payload) =>
      if PayloadOverflows(payload) then Fatal(CapacityTooLarge)
      else if 0 < ReadyCount(payload) then Good(ReadyCount(payload))
      else Retry(NoneReady)
  }

  ghost function Judged(probes: nat -> Probe): nat -> Answer<nat, Error> { (i: nat) => Judge(probes(i)) }

  method Wait(probes: nat -> Probe, configured: Option<int>, start: real, clock: nat -> real)
    returns (outcome: Outcome<nat, Error>)
    requires Advances(clock, start)
    ensures outcome ==
            Fence(Judged(probes), clock, start,
                  start + (if configured.Some? && configured.value != 0 then configured.value else 300) as real, 0)
  {
    var deadline := start + TimeoutOf(configured, DEFAULT_TIMEOUT_SECONDS) as real;
    var i := 0;
    ghost var answers := Judged(probes);
    while true
      invariant Fence(answers, clock, start, deadline, 0) == Fence(answers, clock, start, deadline, i)
      decreases deadline - clock(i)
    {
      var lastError: Error;
      var probe := probes(i);
      assert answers(i) == Judge(probe);
      match probe {
        case RequestError(message) => lastError := Request(message);
        case Instances(payload) =>
          var count := CountReady(payload);
          if count.None? { return Raised(i + 1, CapacityTooLarge); }
          if 0 < count.value { return Returned(i + 1, count.value); }
          lastError := NoneReady;
      }
      if deadline <= clock(i) { return TimedOut(i + 1, lastError); }
      assert Sleeps(clock, i);
      i := i + 1;
    }
  }

  /** An instance list that counts as ready: some instance is, and none has a capacity too large. */
  ghost predicate ShowsReady(probe: Probe) {
    && probe.Instances? && probe.payload.Results? && !PayloadOverflows(probe.payload)
    && exists item :: item in probe.payload.items && Ready(item)
  }

  ghost predicate ShowsOverflow(probe: Probe) { probe.Instances? && PayloadOverflows(probe.payload) }

  ghost predicate KeepsWaiting(probes: nat -> Probe, clock: nat -> real, deadline: real, i: nat) {
    !ShowsReady(probes(i)) && !ShowsOverflow(probes(i)) && clock(i) < deadline
  }

  lemma JudgedByShows(probe: Probe)
    ensures Judge(probe).Good? <==> ShowsReady(probe)
    ensures Judge(probe).Good? ==> Judge(probe).value == ReadyCount(probe.payload)
    ensures Judge(probe).Fatal? <==> ShowsOverflow(probe)
  {
    if probe.Instances? && probe.payload.Results? {
      var items := probe.payload.items;
      if 0 < ReadyCount(probe.payload) {
        assert ReadyPositions(items) != {};
        var i :| i in ReadyPositions(items);
        assert items[i] in items && Ready(items[i]);
      }
      if item :| item in items && Ready(item) {
        var i :| 0 <= i < |items| && items[i] == item;
        assert i in ReadyPositions(items);
      }
    }
  }

  /** A wait returns at exactly the first attempt that shows a ready instance, if all before keep it
      waiting; it raises early exactly at a capacity too large for a float, which nothing catches; and
      request errors alone never end it before the deadline. */
  lemma WaitEndsExactly(probes: nat -> Probe, clock: nat -> real, start: real, deadline: real, n: nat)
    requires Advances(clock, start)
    ensures var o := Fence(Judged(probes), clock, start, deadline, 0);
            && (o.Returned? && o.attempts == n + 1 <==>
                  ShowsReady(probes(n)) && forall i :: 0 <= i < n ==> KeepsWaiting(probes, clock, deadline, i))
            && (o.Returned? && o.attempts == n + 1 ==> o.value == ReadyCount(probes(n).payload))
            && (o.Raised? && o.attempts == n + 1 <==>
                  ShowsOverflow(probes(n)) && forall i :: 0 <= i < n ==> KeepsWaiting(probes, clock, deadline, i))
  {
    var answers := Judged(probes);
    var o := Fence(answers, clock, start, deadline, 0);
    FenceIsExact(answers, clock, start, deadline, o);
    JudgedByShows(probes(n));
    assert answers(n) == Judge(probes(n));
    forall i: nat ensures GoesOn(answers, clock, deadline, i) <==> KeepsWaiting(probes, clock, deadline, i) {
      JudgedByShows(probes(i));
      assert answers(i) == Judge(probes(i));
    }
    hide Judge, ShowsReady, ShowsOverflow;
    if ShowsReady(probes(n)) && forall i :: 0 <= i < n ==> KeepsWaiting(probes, clock, deadline, i) {
      FenceIsExact(answers, clock, start, deadline, Returned(n + 1, answers(n).value));
    }
    if ShowsOverflow(probes(n)) && forall i :: 0 <= i < n ==> KeepsWaiting(probes, clock, deadline, i) {
      FenceIsExact(answers, clock, start, deadline, Raised(n + 1, answers(n).error));
    }
  }
}

/** The push of a local commit, retried over transient SSH failures. */
module GitPush {
  import opened Wrappers
  import opened Strings
  import opened PollFence

  const RETRY_TIMEOUT_SECONDS := 180

  const TRANSIENT_ERRORS: seq<string> := [
    "kex_exchange_identification", "Connection reset", "Connection refused", "Connection timed out",
    "Connection closed", "No route to host", "Operation timed out"]

  /** How one push ends; git's own failure carries what it printed, if anything. */
  datatype Attempt = Pushed | Exited(stderr: Option<string>) | OtherException(message: string)

  datatype Error = GitFailed(stderr: Option<string>) | Other(message: string)

  predicate Transient(stderr: string) { exists e :: e in TRANSIENT_ERRORS && Occurs(e, stderr) }

  function StderrOf(attempt: Attempt): string
    requires attempt.Exited?
  {
    Or(attempt.stderr, "")
  }

  /** A failure of git's own that printed one of the seven texts of a passing connection trouble. */
  ghost predicate FailedTransiently(attempt: Attempt) {
    && attempt.Exited? && attempt.stderr.Some?
    && var text := attempt.stderr.value;
       || Occurs("kex_exchange_identification", text) || Occurs("Connection reset", text)
       || Occurs("Connection refused", text) || Occurs("Connection timed out", text)
       || Occurs("Connection closed", text) || Occurs("No route to host", text)
       || Occurs("Operation timed out", text)
  }

  lemma TransientIs(attempt: Attempt)
    requires attempt.Exited?
    ensures Transient(StderrOf(attempt)) <==> FailedTransiently(attempt)
  {
    var stderr := StderrOf(attempt);
    if attempt.stderr.None? { forall e | e in TRANSIENT_ERRORS ensures !Occurs(e, "") { assert e != ""; } }
    if FailedTransiently(attempt) {
      NamedIsTransient(stderr);
    }
    hide Occurs;
  }

  lemma NamedIsTransient(stderr: string)
    ensures forall i :: 0 <= i < |TRANSIENT_ERRORS| && Occurs(TRANSIENT_ERRORS[i], stderr) ==> Transient(stderr)
  {
    hide Occurs;
    forall i | 0 <= i < |TRANSIENT_ERRORS| && Occurs(TRANSIENT_ERRORS[i], stderr) ensures Transient(stderr) {
      assert TRANSIENT_ERRORS[i] in TRANSIENT_ERRORS;
    }
  }

  function Judge(attempt: Attempt): Answer<(), Error> {
    match attempt
    case Pushed => Good(())
    case Exited(stderr) => if Transient(StderrOf(attempt)) then Retry(GitFailed(stderr)) else Fatal(GitFailed(stderr))
    case OtherException(message) => Fatal(Other(message))
  }

  ghost function Judged(attempts: nat -> Attempt): nat -> Answer<(), Error> { (i: nat) => Judge(attempts(i)) }

  method Push(attempts: nat -> Attempt, start: real, clock: nat -> real) returns (outcome: Outcome<(), Error>)
    requires Advances(clock, start)
    ensures outcome == Fence(Judged(attempts), clock, start, start + 180.0, 0)
  {
    var deadline := start + RETRY_TIMEOUT_SECONDS as real;
    var i := 0;
    ghost var answers := Judged(attempts);
    while true
      invariant Fence(answers, clock, start, deadline, 0) == Fence(answers, clock, start, deadline, i)
      decreases deadline - clock(i)
    {
      var attempt := attempts(i);
      assert answers(i) == Judge(attempt);
      match attempt {
        case Pushed => return Returned(i + 1, ());
        case OtherException(message) => return Raised(i + 1, Other(message));
        case Exited(stderr) =>
          if !Transient(StderrOf(attempt)) { return Raised(i + 1, GitFailed(stderr)); }
          if deadline <= clock(i) { return TimedOut(i + 1, GitFailed(stderr)); }
      }
      assert Sleeps(clock, i);
      i := i + 1;
    }
  }

  /** Every failed push that was tried again named a transient error, at most 37 pushes are made,
      and the failure that is reported in the end is that of the last push. */
  lemma PushIsSound(attempts: nat -> Attempt, clock: nat -> real, start: real)
    requires Advances(clock, start)
    ensures var o := Fence(Judged(attempts), clock, start, start + 180.0, 0);
            && 1 <= o.attempts <= 37
            && (o.Returned? <==> attempts(o.attempts - 1).Pushed?)
            && (!o.Returned? && attempts(o.attempts - 1).Exited? ==>
                 o.error == GitFailed(attempts(o.attempts - 1).stderr))
            && forall i :: 0 <= i < o.attempts - 1 ==> FailedTransiently(attempts(i))
  {
    hide Transient, FailedTransiently;
    var answers := Judged(attempts);
    var deadline := start + 180.0;
    var o := Fence(answers, clock, start, deadline, 0);
    FenceIsExact(answers, clock, start, deadline, o);
    AttemptsAreBounded(answers, clock, start, 180.0);
    forall i | 0 <= i < o.attempts - 1 ensures FailedTransiently(attempts(i)) {
      assert GoesOn(answers, clock, deadline, i);
      TransientIs(attempts(i));
    }
  }

  ghost predicate Retries(attempts: nat -> Attempt, clock: nat -> real, deadline: real, i: nat) {
    FailedTransiently(attempts(i)) && clock(i) < deadline
  }

  lemma JudgedTransient(attempt: Attempt)
    ensures Judge(attempt).Retry? <==> FailedTransiently(attempt)
  {
    if attempt.Exited? { TransientIs(attempt); }
    hide Transient;
  }

  /** When a push returns, when it raises at once, and when it raises for want of time: all attempts
      before failed transiently and met the deadline. */
  lemma PushEndsExactly(attempts: nat -> Attempt, clock: nat -> real, start: real, n: nat)
    requires Advances(clock, start)
    ensures var deadline := start + 180.0;
            var o, tried := Fence(Judged(attempts), clock, start, deadline, 0), attempts(n);
            var soFar := forall i :: 0 <= i < n ==> Retries(attempts, clock, deadline, i);
            && (o.Returned? && o.attempts == n + 1 <==> soFar && tried.Pushed?)
            && (o.Raised? && o.attempts == n + 1 <==>
                  soFar && !tried.Pushed? && !FailedTransiently(tried))
            && (o.TimedOut? && o.attempts == n + 1 <==>
                  soFar && FailedTransiently(tried) && deadline <= clock(n))
  {
    hide Transient, FailedTransiently;
    var answers, deadline := Judged(attempts), start + 180.0;
    var o := Fence(answers, clock, start, deadline, 0);
    FenceIsExact(answers, clock, start, deadline, o);
    forall i: nat ensures GoesOn(answers, clock, deadline, i) <==> Retries(attempts, clock, deadline, i) {
      JudgedTransient(attempts(i));
      assert answers(i) == Judge(attempts(i));
    }
    JudgedTransient(attempts(n));
    assert answers(n) == Judge(attempts(n));
    if forall i :: 0 <= i < n ==> Retries(attempts, clock, deadline, i) {
      match answers(n)
      case Good(v) => FenceIsExact(answers, clock, start, deadline, Returned(n + 1, v));
      case Fatal(e) => FenceIsExact(answers, clock, start, deadline, Raised(n + 1, e));
      case Retry(e) => if deadline <= clock(n) { FenceIsExact(answers, clock, start, deadline, TimedOut(n + 1, e)); }
    }
  }
}
