/** Warm Lambda workers (kumostack/core/lambda_runtime.py): one subprocess per worker, a
    line protocol over its pipes, respawn after errors, timeouts and deaths. */
module WarmWorker {
  import opened Prelude
  import opened Text

  /** Both readers, that of the start and that of an invocation, give up after this many lines. */
  const MAX_LINES: nat := 200

  /** A line on the worker's stdout: text that is not JSON, a JSON object without a protocol
      status, the two replies to the init message, and the reply to an event. */
  datatype Line = Text | Log | Ready | InitError | Answer(event: nat, ok: bool)

  /** What user code prints. */
  type Noise = l: Line | l.Text? || l.Log? witness Text

  /** A worker subprocess.  `alive` is what poll() sees; stdout ends after `stdout` unless it
      is `open`; a process that is `serving` reads events once it has written what is in
      `stdout`.  Two fields record its past: `started` that its start returned normally,
      `served` how many events it has read. */
  datatype Process = Process(
    alive: bool,
    open: bool,
    serving: bool,
    stdin: seq<nat>,
    stdout: seq<Line>,
    started: bool,
    served: nat
  )

  /** How importing the handler's module ends: the worker loop is entered; an error is
      reported; the process exits; or the import never returns.  `lingers` tells whether the
      process is still there when the next invocation looks. */
  datatype Ending = Enters | Errors(lingers: bool) | Exits(lingers: bool) | Stalls

  datatype Start = Start(noise: seq<Noise>, ending: Ending)

  /** What the subprocess does with the next event on its stdin. */
  datatype Behaviour =
    | Replies(noise: seq<Noise>, ok: bool)
    | Dies(noise: seq<Noise>)
    | Hangs(noise: seq<Noise>)

  datatype Starting = Started | Raised | Blocked

  /** What the reader thread obtains before the timeout; a reply without an event is the
      error that the init message got. */
  datatype Reading = Reply(event: Option<nat>, ok: bool) | Eof | NoJson | TimedOut

  datatype Response = Response(reading: Reading, coldStart: bool)

  /** A finished invocation, with the process that handled it as it was before the event; or
      one whose start raised, or never returned. */
  datatype Outcome = SpawnFailed | SpawnBlocked | Returned(response: Response, handler: Process)

  /** Everything around a worker that it does not control. */
  datatype Environment = Environment(start: Start, behaviour: Behaviour)

  // ---------------------------------------------------------------------
  // The subprocess
  // ---------------------------------------------------------------------

  /** The line that ends the init output, if any. */
  function LastInitLine(e: Ending): seq<Line> {
    match e
    case Enters => [Ready]
    case Errors(_) => [InitError]
    case _ => []
  }

  /** A new process with all it writes in answer to the init message. */
  function Boot(start: Start): Process {
    var e := start.ending;
    var noise: seq<Line> := start.noise;
    Process(e.Enters? || e.Stalls? || e.lingers, e.Enters? || e.Stalls? || (e.Errors? && e.lingers), e.Enters?,
            [], noise + LastInitLine(e), false, 0)
  }

  /** The worker loop: take the next event, maybe print noise, and write one reply.  A process
      that is not serving leaves the event on its stdin. */
  function Serve(p: Process, b: Behaviour): Process
    requires p.stdin != []
  {
    var noise: seq<Line> := b.noise;
    var q := if p.serving then p.(stdin := p.stdin[1..], served := p.served + 1) else p;
    match b
    case Replies(_, ok) =>
      q.(stdout := p.stdout + noise + if p.serving then [Answer(p.stdin[0], ok)] else [])
    case Dies(_) => q.(stdout := p.stdout + noise, alive := false, open := false)
    case Hangs(_) => q.(stdout := p.stdout + noise)
  }

  // ---------------------------------------------------------------------
  // The two readers
  // ---------------------------------------------------------------------

  /** The start skips text; the first JSON object decides. */
  function ReadInit(lines: seq<Line>, open: bool, budget: nat): Starting {
    if budget == 0 then Raised
    else if lines == [] then if open then Blocked else Raised
    else if lines[0].Text? then ReadInit(lines[1..], open, budget - 1)
    else if lines[0].Ready? then Started
    else Raised
  }

  /** Lines left when the start returns or raises. */
  function UnreadInit(lines: seq<Line>, budget: nat): seq<Line> {
    if budget == 0 || lines == [] then lines
    else if lines[0].Text? then UnreadInit(lines[1..], budget - 1)
    else lines[1..]
  }

  /** Status "ok" or "error", whichever message the line answers. */
  predicate IsReply(l: Line) {
    l.Answer? || l.InitError?
  }

  /** An invocation takes the first reply among the next `budget` lines. */
  function Read(lines: seq<Line>, open: bool, budget: nat): Reading {
    if budget == 0 then NoJson
    else if lines == [] then if open then TimedOut else Eof
    else if lines[0].Answer? then Reply(Some(lines[0].event), lines[0].ok)
    else if lines[0].InitError? then Reply(None, false)
    else Read(lines[1..], open, budget - 1)
  }

  /** Lines left when the reader stops. */
  function Unread(lines: seq<Line>, budget: nat): seq<Line> {
    if budget == 0 || lines == [] then lines
    else if IsReply(lines[0]) then lines[1..]
    else Unread(lines[1..], budget - 1)
  }

  // ---------------------------------------------------------------------
  // The worker
  // ---------------------------------------------------------------------

  /** Whether `invoke` reuses the process it finds. */
  predicate Reusable(p: Option<Process>) {
    p.Some? && p.value.alive
  }

  /** The process that a start leaves in place, whether or not it raises. */
  function Spawned(start: Start): (Process, Starting) {
    var p := Boot(start);
    var r := ReadInit(p.stdout, p.open, MAX_LINES);
    (p.(stdout := UnreadInit(p.stdout, MAX_LINES), started := r.Started?), r)
  }

  function Invoked(p: Option<Process>, event: nat, env: Environment): (Option<Process>, Outcome) {
    var (fresh', starting) := Spawned(env.start);
    if !Reusable(p) && starting.Raised? then (Some(fresh'), SpawnFailed)
    else if !Reusable(p) && starting.Blocked? then (Some(fresh'), SpawnBlocked)
    else
      var handler := if Reusable(p) then p.value else fresh';
      var served := Serve(handler.(stdin := handler.stdin + [event]), env.behaviour);
      var reading := Read(served.stdout, served.open, MAX_LINES);
      (if reading.Reply? && reading.ok then Some(served.(stdout := Unread(served.stdout, MAX_LINES))) else None,
       Returned(Response(reading, !Reusable(p)), handler))
  }

  class Worker {
    var proc: Option<Process>
    var cold: bool

    constructor ()
      ensures proc == None
    {
      proc, cold := None, true;
    }

    method Spawn(start: Start) returns (starting: Starting)
      modifies this
      ensures starting == Spawned(start).1 && proc == Some(Spawned(start).0)
      ensures cold == old(cold)
    {
      var p := Boot(start);
      var lines, budget := p.stdout, MAX_LINES;
      starting := Raised;
      while budget > 0
        invariant starting == Raised
        invariant ReadInit(lines, p.open, budget) == ReadInit(p.stdout, p.open, MAX_LINES)
        invariant UnreadInit(lines, budget) == UnreadInit(p.stdout, MAX_LINES)
        invariant cold == old(cold)
      {
        if lines == [] {
          starting := if p.open then Blocked else Raised;
          break;
        }
        var line := lines[0];
        lines, budget := lines[1..], budget - 1;
        if !line.Text? {
          starting := if line.Ready? then Started else Raised;
          proc := Some(p.(stdout := lines, started := starting.Started?));
          return;
        }
      }
      proc := Some(p.(stdout := lines, started := false));
    }

    /** The reader thread: skip up to MAX_LINES lines that are not replies. */
    method ReadResponse() returns (reading: Reading)
      requires proc.Some?
      modifies this
      ensures reading == Read(old(proc).value.stdout, old(proc).value.open, MAX_LINES)
      ensures proc == Some(old(proc).value.(stdout := Unread(old(proc).value.stdout, MAX_LINES)))
      ensures cold == old(cold)
    {
      var lines, budget := proc.value.stdout, MAX_LINES;
      while budget > 0
        invariant Read(lines, proc.value.open, budget) == Read(proc.value.stdout, proc.value.open, MAX_LINES)
        invariant Unread(lines, budget) == Unread(proc.value.stdout, MAX_LINES)
        invariant proc == old(proc) && cold == old(cold)
      {
        if lines == [] {
          reading := if proc.value.open then TimedOut else Eof;
          proc := Some(proc.value.(stdout := lines));
          return;
        }
        var line := lines[0];
        lines, budget := lines[1..], budget - 1;
        if IsReply(line) {
          reading := if line.Answer? then Reply(Some(line.event), line.ok) else Reply(None, false);
          proc := Some(proc.value.(stdout := lines));
          return;
        }
      }
      reading := NoJson;
      proc := Some(proc.value.(stdout := lines));
    }

    method Invoke(event: nat, env: Environment) returns (outcome: Outcome)
      modifies this
      ensures (proc, outcome) == Invoked(old(proc), event, env)
    {
      var coldStart := cold;
      if proc.None? || !proc.value.alive {
        var starting := Spawn(env.start);
        if starting != Started {
          return if starting == Raised then SpawnFailed else SpawnBlocked;
        }
        coldStart := true;
        cold := false;
      } else {
        coldStart := false;
      }
      var handler := proc.value;
      proc := Some(proc.value.(stdin := proc.value.stdin + [event]));
      proc := Some(Serve(proc.value, env.behaviour));
      var reading := ReadResponse();
      if !(reading.Reply? && reading.ok) {
        proc := None;
      }
      outcome := Returned(Response(reading, coldStart), handler);
    }

    method Kill()
      modifies this
      ensures !Reusable(proc) && cold == old(cold)
    {
      if proc.Some? && proc.value.alive {
        proc := None;
      }
    }
  }

  // ---------------------------------------------------------------------
  // Starting
  // ---------------------------------------------------------------------

  ghost predicate NoReply(lines: seq<Line>) {
    forall i :: 0 <= i < |lines| ==> !IsReply(lines[i])
  }

  /** Nothing but text, and less of it than the start is willing to skip. */
  ghost predicate Skipped(noise: seq<Line>) {
    |noise| < MAX_LINES && forall i :: 0 <= i < |noise| ==> noise[i].Text?
  }

  lemma {:induction false} InitPastText(noise: seq<Line>, last: seq<Line>, open: bool, budget: nat)
    requires |noise| < budget && forall i :: 0 <= i < |noise| ==> noise[i].Text?
    ensures ReadInit(noise + last, open, budget) == ReadInit(last, open, budget - |noise|)
    ensures UnreadInit(noise + last, budget) == UnreadInit(last, budget - |noise|)
  {
    if noise == [] {
      assert noise + last == last;
    } else {
      assert (noise + last)[1..] == noise[1..] + last;
      InitPastText(noise[1..], last, open, budget - 1);
    }
  }

  /** A JSON object among the noise, or too much of it, makes the start raise. */
  lemma {:induction false} InitRaises(noise: seq<Line>, last: seq<Line>, open: bool, budget: nat)
    requires forall i :: 0 <= i < |noise| ==> noise[i].Text? || noise[i].Log?
    requires |noise| >= budget || exists i :: 0 <= i < |noise| && noise[i].Log?
    ensures ReadInit(noise + last, open, budget) == Raised
  {
    if budget > 0 && noise[0].Text? {
      assert (noise + last)[1..] == noise[1..] + last;
      if |noise| < budget {
        var i :| 0 <= i < |noise| && noise[i].Log?;
        assert noise[1..][i - 1].Log?;
      }
      InitRaises(noise[1..], last, open, budget - 1);
    }
  }

  /** A start returns normally exactly when the import prints less than 200 lines, no JSON
      object among them, and enters the worker loop; then nothing of it is left unread. */
  lemma StartsExactly(start: Start)
    ensures var (p, r) := Spawned(start);
            (r == Started <==> Skipped(start.noise) && start.ending.Enters?) &&
            (r == Blocked <==> Skipped(start.noise) && start.ending.Stalls?) &&
            (r == Started ==> p.alive && p.open && p.serving && p.stdout == [])
  {
    var noise: seq<Line> := start.noise;
    var p := Boot(start);
    if Skipped(noise) {
      InitPastText(noise, LastInitLine(start.ending), p.open, MAX_LINES);
    } else {
      InitRaises(noise, LastInitLine(start.ending), p.open, MAX_LINES);
    }
  }

  lemma {:induction false} UnreadInitFrom(lines: seq<Line>, budget: nat)
    ensures exists k: nat :: k <= |lines| && UnreadInit(lines, budget) == lines[k..]
  {
    if budget > 0 && lines != [] && lines[0].Text? {
      UnreadInitFrom(lines[1..], budget - 1);
      var k: nat :| k <= |lines[1..]| && UnreadInit(lines[1..], budget - 1) == lines[1..][k..];
      assert lines[1..][k..] == lines[k + 1..];
    } else if budget == 0 || lines == [] {
      assert lines[0..] == lines;
    } else {
      assert UnreadInit(lines, budget) == lines[1..];
    }
  }

  /** What a start leaves behind: unread init output, without any reply to an event. */
  lemma LeftUnread(start: Start)
    ensures var p := Spawned(start).0;
            p.stdin == [] && p.served == 0 &&
            (forall i :: 0 <= i < |p.stdout| ==> !p.stdout[i].Answer?) && (p.serving ==> NoReply(p.stdout))
  {
    var p := Boot(start);
    UnreadInitFrom(p.stdout, MAX_LINES);
    var noise: seq<Line> := start.noise;
    forall i | 0 <= i < |p.stdout|
      ensures !p.stdout[i].Answer? && (p.serving ==> !IsReply(p.stdout[i]))
    {
      assert i < |noise| ==> p.stdout[i] == start.noise[i];
    }
  }

  // ---------------------------------------------------------------------
  // Runs
  // ---------------------------------------------------------------------

  /** `Prints` is what threads and children of the process write between two invocations. */
  datatype Event = Invocation(event: nat, env: Environment) | Prints(noise: seq<Noise>) | ProcessDeath | Killed

  function After(p: Option<Process>, e: Event): Option<Process> {
    match e
    case Invocation(event, env) => Invoked(p, event, env).0
    case Prints(noise) =>
      if !Reusable(p) then p
      else
        var more: seq<Line> := noise;
        Some(p.value.(stdout := p.value.stdout + more))
    case ProcessDeath => if p.Some? then Some(p.value.(alive := false, open := false)) else p
    case Killed => if Reusable(p) then None else p
  }

  /** After a kill or a death the next invocation goes as on a new worker. */
  lemma EndedStartsAnew(p: Option<Process>, e: Event, event: nat, env: Environment)
    requires e.ProcessDeath? || e.Killed?
    ensures !Reusable(After(p, e))
    ensures Invoked(After(p, e), event, env) == Invoked(None, event, env)
  {
  }

  function Run(p: Option<Process>, run: seq<Event>): Option<Process> {
    if run == [] then p else After(Run(p, run[..|run| - 1]), run[|run| - 1])
  }

  /** Between invocations a live process has no pending event and no unread reply to an event.
      One that serves, as every one does whose start returned normally or that has served an
      event, has no unread reply at all; what else it printed may be unread. */
  ghost predicate Quiet(p: Option<Process>) {
    Reusable(p) ==>
      p.value.stdin == [] &&
      (p.value.started ==> p.value.served > 0) &&
      (p.value.served > 0 ==> p.value.serving) &&
      (forall i :: 0 <= i < |p.value.stdout| ==> !p.value.stdout[i].Answer?) &&
      (p.value.serving ==> NoReply(p.value.stdout))
  }

  lemma {:induction false} ReadPast(skipped: seq<Line>, rest: seq<Line>, open: bool, budget: nat)
    requires NoReply(skipped)
    ensures |skipped| <= budget ==> Read(skipped + rest, open, budget) == Read(rest, open, budget - |skipped|)
    ensures |skipped| <= budget ==> Unread(skipped + rest, budget) == Unread(rest, budget - |skipped|)
    ensures |skipped| > budget ==> Read(skipped + rest, open, budget) == NoJson
  {
    if skipped == [] {
      assert skipped + rest == rest;
    } else if budget > 0 {
      assert (skipped + rest)[1..] == skipped[1..] + rest;
      ReadPast(skipped[1..], rest, open, budget - 1);
    }
  }

  /** A reply is read only if it is there, and without replies to events only an init error is. */
  lemma {:induction false} ReadFinds(lines: seq<Line>, open: bool, budget: nat)
    requires forall i :: 0 <= i < |lines| ==> !lines[i].Answer?
    ensures Read(lines, open, budget).Reply? ==>
              Read(lines, open, budget) == Reply(None, false) && exists i :: 0 <= i < |lines| && lines[i].InitError?
  {
    if budget > 0 && lines != [] && !lines[0].InitError? {
      ReadFinds(lines[1..], open, budget - 1);
      if Read(lines, open, budget).Reply? {
        var i :| 0 <= i < |lines[1..]| && lines[1..][i].InitError?;
        assert lines[i + 1].InitError?;
      }
    }
  }

  /** What a serving process without unread replies yields for one event: its own reply, if
      it writes one and the lines before it are few enough; otherwise the reader gives up, at
      the line limit, at the end of the output, or at the timeout. */
  lemma ServeAndRead(p: Process, event: nat, b: Behaviour)
    requires p.serving && p.stdin == [] && NoReply(p.stdout)
    ensures var q := Serve(p.(stdin := p.stdin + [event]), b);
            var reading := Read(q.stdout, q.open, MAX_LINES);
            if |p.stdout| + |b.noise| >= MAX_LINES then reading == NoJson
            else if b.Replies? then
              reading == Reply(Some(event), b.ok) && Unread(q.stdout, MAX_LINES) == [] && q.stdin == []
            else reading == if b.Hangs? && p.open then TimedOut else Eof
  {
    var q := Serve(p.(stdin := p.stdin + [event]), b);
    var noise: seq<Line> := b.noise;
    var skipped := p.stdout + noise;
    forall i | 0 <= i < |skipped|
      ensures !IsReply(skipped[i])
    {
      assert i >= |p.stdout| ==> skipped[i] == b.noise[i - |p.stdout|];
    }
    var rest: seq<Line> := if b.Replies? then [Answer(event, b.ok)] else [];
    assert q.stdout == skipped + rest;
    ReadPast(skipped, rest, q.open, MAX_LINES);
  }

  /** A process that does not serve yields at most the init error it left unread. */
  lemma IdleYieldsInitError(p: Process, event: nat, b: Behaviour)
    requires !p.serving && forall i :: 0 <= i < |p.stdout| ==> !p.stdout[i].Answer?
    ensures var q := Serve(p.(stdin := p.stdin + [event]), b);
            var reading := Read(q.stdout, q.open, MAX_LINES);
            reading.Reply? ==> reading == Reply(None, false) && InitError in p.stdout
  {
    var q := Serve(p.(stdin := p.stdin + [event]), b);
    var noise: seq<Line> := b.noise;
    assert q.stdout == p.stdout + noise;
    forall i | 0 <= i < |q.stdout|
      ensures !q.stdout[i].Answer? && (q.stdout[i].InitError? ==> i < |p.stdout|)
    {
      assert i >= |p.stdout| ==> q.stdout[i] == b.noise[i - |p.stdout|];
    }
    ReadFinds(q.stdout, q.open, MAX_LINES);
    if Read(q.stdout, q.open, MAX_LINES).Reply? {
      var i :| 0 <= i < |q.stdout| && q.stdout[i].InitError?;
      assert p.stdout[i] == InitError;
    }
  }

  /** The process that handles an invocation which does not fail to start. */
  lemma HandlerQuiet(p: Option<Process>, event: nat, env: Environment)
    requires Quiet(p) && Invoked(p, event, env).1.Returned?
    ensures var h := Invoked(p, event, env).1.handler;
            h.stdin == [] && (forall i :: 0 <= i < |h.stdout| ==> !h.stdout[i].Answer?) &&
            (h.serving ==> NoReply(h.stdout))
  {
    LeftUnread(env.start);
  }

  /** What one invocation obtains from a quiet worker, and what it keeps. */
  lemma InvokedFromQuiet(p: Option<Process>, event: nat, env: Environment)
    requires Quiet(p) && Invoked(p, event, env).1.Returned?
    ensures var (p', outcome) := Invoked(p, event, env);
            var reading, h := outcome.response.reading, outcome.handler;
            (reading.Reply? ==> (reading.event == Some(event) <==> InitError !in h.stdout)) &&
            (reading.Reply? && reading.event != Some(event) ==> reading == Reply(None, false)) &&
            (p'.Some? <==> reading.Reply? && reading.ok) &&
            (p'.Some? ==> p'.value.stdin == [] && p'.value.stdout == [] && p'.value.serving && p'.value.served > 0)
  {
    var h := Invoked(p, event, env).1.handler;
    HandlerQuiet(p, event, env);
    if h.serving {
      ServeAndRead(h, event, env.behaviour);
    } else {
      IdleYieldsInitError(h, event, env.behaviour);
    }
  }

  lemma QuietStep(p: Option<Process>, e: Event)
    requires Quiet(p)
    ensures Quiet(After(p, e))
  {
    if e.Invocation? {
      if Invoked(p, e.event, e.env).1.Returned? {
        InvokedFromQuiet(p, e.event, e.env);
      } else {
        LeftUnread(e.env.start);
      }
    } else if e.Prints? && Reusable(p) {
      var more: seq<Line> := e.noise;
      forall i | 0 <= i < |more|
        ensures !IsReply(more[i])
      {
        assert more[i] == e.noise[i];
      }
    }
  }

  /** In every run, a live process that is kept holds no unread reply to an event, and no unread
      reply at all unless it never serves. */
  lemma {:induction false} AlwaysQuiet(run: seq<Event>)
    ensures Quiet(Run(None, run))
  {
    if run != [] {
      AlwaysQuiet(run[..|run| - 1]);
      QuietStep(Run(None, run[..|run| - 1]), run[|run| - 1]);
    }
  }

  /** After any run, a reply that comes back was produced from the very event sent, exactly
      unless the process had an unread init error; then the reply is that error.  So an ok
      reply always belongs to its request, and the process is kept exactly after one. */
  lemma {:induction false} RepliesArePaired(run: seq<Event>, event: nat, env: Environment)
    ensures var (p, outcome) := Invoked(Run(None, run), event, env);
            outcome.Returned? ==>
              var reading := outcome.response.reading;
              (reading.Reply? ==> (reading.event == Some(event) <==> InitError !in outcome.handler.stdout)) &&
              (reading.Reply? && reading.event != Some(event) ==> reading == Reply(None, false)) &&
              (reading.Reply? && reading.ok ==> reading.event == Some(event)) &&
              (p.Some? <==> reading.Reply? && reading.ok) &&
              (p.Some? ==> p.value.stdin == [] && p.value.stdout == [])
  {
    AlwaysQuiet(run);
    if Invoked(Run(None, run), event, env).1.Returned? {
      InvokedFromQuiet(Run(None, run), event, env);
    }
  }

  /** After any run, a serving process yields its reply exactly if it writes one and the lines
      unread before the request and those printed before the reply are less than 200 in all;
      with 200 or more the reader gives up, and otherwise the process has died or hangs. */
  lemma {:induction false} AnsweredExactly(run: seq<Event>, event: nat, env: Environment)
    ensures var outcome := Invoked(Run(None, run), event, env).1;
            outcome.Returned? && outcome.handler.serving ==>
              var reading, b := outcome.response.reading, env.behaviour;
              if |outcome.handler.stdout| + |b.noise| >= MAX_LINES then reading == NoJson
              else if b.Replies? then reading == Reply(Some(event), b.ok)
              else reading == if b.Hangs? && outcome.handler.open then TimedOut else Eof
  {
    AlwaysQuiet(run);
    var outcome := Invoked(Run(None, run), event, env).1;
    if outcome.Returned? && outcome.handler.serving {
      HandlerQuiet(Run(None, run), event, env);
      ServeAndRead(outcome.handler, event, env.behaviour);
    }
  }

  /** 200 lines printed after a reply make the next request fail, although its handler replies. */
  lemma FloodedRequestFails(event: nat, event': nat, noise: seq<Noise>)
    requires |noise| == MAX_LINES
    ensures var good := Environment(Start([], Enters), Replies([], true));
            var run := [Invocation(event, good), Prints(noise)];
            Invoked(Run(None, run), event', good).1.Returned? &&
            Invoked(Run(None, run), event', good).1.response == Response(NoJson, false)
  {
    var good := Environment(Start([], Enters), Replies([], true));
    var first := [Invocation(event, good)];
    var run := first + [Prints(noise)];
    assert run[..1] == first && first[..0] == [];
    StartsExactly(good.start);
    ServeAndRead(Spawned(good.start).0, event, good.behaviour);
    InvokedFromQuiet(None, event, good);
    var p := Run(None, first);
    assert Run(None, first[..0]) == None;
    assert p == Invoked(None, event, good).0 && p.value.alive && p.value.stdout == [];
    var more: seq<Line> := noise;
    assert p.value.stdout + more == more;
    assert Run(None, run) == Some(p.value.(stdout := more));
    forall i | 0 <= i < |more|
      ensures !IsReply(more[i])
    {
      assert more[i] == noise[i];
    }
    var q := Serve(Run(None, run).value.(stdin := [event']), good.behaviour);
    assert q.stdout == more + [Answer(event', true)];
    ReadPast(more, [Answer(event', true)], q.open, MAX_LINES);
  }

  /** `cold_start` tells whether the process had served nothing before, exactly when its start
      returned normally or it has served an event. */
  lemma {:induction false} ColdStartExact(run: seq<Event>, event: nat, env: Environment)
    ensures var outcome := Invoked(Run(None, run), event, env).1;
            outcome.Returned? ==>
              ((outcome.response.coldStart <==> outcome.handler.served == 0) <==>
               outcome.handler.started || outcome.handler.served > 0)
  {
    AlwaysQuiet(run);
  }

  /** Whenever a start raises and its process is still there, the next request reports a warm
      start on a process that has served nothing. */
  lemma RaisedStartReportsWarm(event: nat, env: Environment, event': nat, env': Environment)
    requires Spawned(env.start).1 == Raised && Spawned(env.start).0.alive
    ensures var first := Invoked(None, event, env);
            var second := Invoked(first.0, event', env').1;
            first.1 == SpawnFailed && second.Returned? &&
            !second.response.coldStart && second.handler.served == 0
  {
    LeftUnread(env.start);
  }

  /** One JSON line printed while the module is imported makes the start raise, although the
      worker goes on to serve: the next request is answered, as if warm. */
  lemma LoggingStart(event: nat, event': nat, any: Environment)
    ensures var logging := Environment(Start([Log], Enters), Replies([], true));
            var first := Invoked(None, event, logging);
            var second := Invoked(first.0, event', any.(behaviour := Replies([], true))).1;
            first.1 == SpawnFailed && second.Returned? &&
            second.response == Response(Reply(Some(event'), true), false) && second.handler.served == 0
  {
    var p := Spawned(Start([Log], Enters)).0;
    var out: seq<Line> := [Log];
    assert (out + [Ready])[1..] == [Ready];
    assert p.stdout == [Ready];
    ServeAndRead(p, event', Replies([], true));
  }

  /** If the import then fails while the process lingers, its init error is returned as the
      reply to the next request. */
  lemma MispairedReply(event: nat, event': nat, b: Behaviour, any: Environment)
    ensures var failing := Environment(Start([Log], Errors(true)), b);
            var first := Invoked(None, event, failing);
            var second := Invoked(first.0, event', any).1;
            first.1 == SpawnFailed && second.Returned? && second.response == Response(Reply(None, false), false)
  {
    var p := Spawned(Start([Log], Errors(true))).0;
    var out: seq<Line> := [Log];
    assert (out + [InitError])[1..] == [InitError];
    assert p.stdout == [InitError] && p.alive;
    var noise: seq<Line> := any.behaviour.noise;
    var q := Serve(p.(stdin := p.stdin + [event']), any.behaviour);
    assert q.stdout == [InitError] + noise;
  }

  // ---------------------------------------------------------------------
  // The pool
  // ---------------------------------------------------------------------

  /** Pool keys: account, region, function name and qualifier, joined with colons. */
  function PoolKey(account: string, region: string, name: string, qualifier: string): string {
    Join([account, region, name, qualifier], ':')
  }

  /** Whether invalidate_worker removes the worker under key `k`; keys of an older shape have
      no region. */
  predicate Selected(k: string, name: string, qualifier: Option<string>, account: Option<string>,
                     region: Option<string>)
  {
    var parts := Split(k, ':');
    (|parts| == 4 || |parts| == 3) &&
    parts[|parts| - 2] == name &&
    (account.Some? ==> parts[0] == account.value) &&
    (region.Some? && |parts| == 4 ==> parts[1] == region.value) &&
    (qualifier.Some? ==> parts[|parts| - 1] == qualifier.value)
  }

  ghost predicate NoColon(s: string) {
    ':' !in s
  }

  /** For names without colons, selection compares the parts the key was made from. */
  lemma SelectedByParts(account: string, region: string, name: string, qualifier: string,
                        name': string, qualifier': Option<string>, account': Option<string>, region': Option<string>)
    requires NoColon(account) && NoColon(region) && NoColon(name) && NoColon(qualifier)
    ensures Selected(PoolKey(account, region, name, qualifier), name', qualifier', account', region') <==>
            name == name' && (qualifier'.Some? ==> qualifier == qualifier'.value) &&
            (account'.Some? ==> account == account'.value) && (region'.Some? ==> region == region'.value)
  {
    SplitOfJoin([account, region, name, qualifier], ':');
  }

  /** A key of the older shape is selected by the same parts, whatever region is asked for. */
  lemma SelectedByOldParts(account: string, name: string, qualifier: string,
                           name': string, qualifier': Option<string>, account': Option<string>, region': Option<string>)
    requires NoColon(account) && NoColon(name) && NoColon(qualifier)
    ensures Selected(Join([account, name, qualifier], ':'), name', qualifier', account', region') <==>
            name == name' && (qualifier'.Some? ==> qualifier == qualifier'.value) &&
            (account'.Some? ==> account == account'.value)
  {
    SplitOfJoin([account, name, qualifier], ':');
  }

  /** Two functions share a worker only if they agree in account, region, name and qualifier. */
  lemma PoolKeysIsolate(a: seq<string>, b: seq<string>)
    requires |a| == |b| == 4 && (forall i :: 0 <= i < 4 ==> NoColon(a[i]) && NoColon(b[i]))
    ensures PoolKey(a[0], a[1], a[2], a[3]) == PoolKey(b[0], b[1], b[2], b[3]) ==> a == b
  {
    assert a == [a[0], a[1], a[2], a[3]] && b == [b[0], b[1], b[2], b[3]];
    SplitOfJoin(a, ':');
    SplitOfJoin(b, ':');
  }

  class Pool {
    var workers: map<string, Worker>

    ghost predicate Valid()
      reads this
    {
      forall k, k' :: k in workers && k' in workers && k != k' ==> workers[k] != workers[k']
    }

    constructor ()
      ensures Valid() && workers == map[]
    {
      workers := map[];
    }

    method GetOrCreate(account: string, region: string, name: string, qualifier: string) returns (w: Worker)
      requires Valid()
      modifies this
      ensures Valid()
      ensures var k := PoolKey(account, region, name, qualifier);
              workers == old(workers)[k := w] && (k in old(workers) ==> w == old(workers)[k]) &&
              (k !in old(workers) ==> fresh(w) && w.proc == None)
    {
      var k := PoolKey(account, region, name, qualifier);
      if k in workers {
        w := workers[k];
        return;
      }
      w := new Worker();
      workers := workers[k := w];
    }

    /** Kills and drops the workers under the given keys; the others are untouched. */
    method KillAll(selected: set<string>)
      requires Valid() && selected <= workers.Keys
      modifies this, workers.Values
      ensures Valid() && workers == old(workers) - selected
      ensures forall k :: k in selected ==> !Reusable(old(workers)[k].proc)
      ensures forall k :: k in workers ==> workers[k].proc == old(workers[k].proc)
    {
      ghost var all := workers;
      var pending := selected;
      while pending != {}
        invariant pending <= selected && workers == all - (selected - pending)
        invariant forall k :: k in selected - pending ==> !Reusable(all[k].proc)
        invariant forall k :: k in all && k !in selected - pending ==> all[k].proc == old(all[k].proc)
        decreases |pending|
      {
        var k :| k in pending;
        assert k in workers;
        workers[k].Kill();
        workers := workers - {k};
        pending := pending - {k};
      }
    }

    method Invalidate(name: string, qualifier: Option<string>, account: Option<string>, region: Option<string>)
      requires Valid()
      modifies this, workers.Values
      ensures Valid()
      ensures forall k :: k in workers <==> k in old(workers) && !Selected(k, name, qualifier, account, region)
      ensures forall k :: k in workers ==>
                workers[k] == old(workers)[k] && workers[k].proc == old(workers[k].proc)
      ensures forall k :: k in old(workers) && k !in workers ==> !Reusable(old(workers)[k].proc)
    {
      var selected := set k | k in workers && Selected(k, name, qualifier, account, region);
      KillAll(selected);
    }

    method Reset()
      requires Valid()
      modifies this, workers.Values
      ensures workers == map[]
      ensures forall k :: k in old(workers) ==> !Reusable(old(workers)[k].proc)
    {
      KillAll(workers.Keys);
    }
  }
}
