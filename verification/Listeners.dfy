/** The listener supervisor: one command loop that owns the sockets, seen by its clients as a register. */
module Listeners {

  import opened Wrappers

  datatype Listener = Smtp | Imap | Jmap

  datatype State = State(available: bool, enabled: bool)

  datatype States = States(smtpState: State, imapState: State, jmapState: State)

  datatype Error = Conflict | StartFailed

  type Reply = Result<State, Error>

  datatype Command = Set(listener: Listener, enabled: bool)

  /**
   * What starting a listener would come to. For SMTP `starts` is the result of its bind. For IMAP it is the check of
   * its configuration only: the bind is left to a task that starting spawns, and `binds` says whether that gets its
   * sockets.
   */
  datatype Startup = Startup(starts: bool, binds: bool)

  /** A command together with what starting would come to when it is served. */
  datatype Served = Served(command: Command, start: Startup)

  function Get(states: States, listener: Listener): State {
    match listener
    case Smtp => states.smtpState
    case Imap => states.imapState
    case Jmap => states.jmapState
  }

  function WithEnabled(states: States, listener: Listener, enabled: bool): States {
    match listener
    case Smtp => states.(smtpState := states.smtpState.(enabled := enabled))
    case Imap => states.(imapState := states.imapState.(enabled := enabled))
    case Jmap => states.(jmapState := states.jmapState.(enabled := enabled))
  }

  // -- The register the clients see ------------------------------------------------

  /** A switch happens when the listener is available, the value differs, and a needed start succeeds. */
  predicate Switches(states: States, s: Served) {
    var now := Get(states, s.command.listener);
    && now.available && now.enabled != s.command.enabled
    && (s.command.enabled && s.command.listener != Jmap ==> s.start.starts)
  }

  function Next(states: States, s: Served): States {
    if Switches(states, s) then WithEnabled(states, s.command.listener, s.command.enabled) else states
  }

  function Answer(states: States, s: Served): Reply {
    var now := Get(states, s.command.listener);
    if !now.available then Err(Conflict)
    else if now.enabled == s.command.enabled || Switches(states, s) then Ok(now.(enabled := s.command.enabled))
    else Err(StartFailed)
  }

  function After(states: States, log: seq<Served>): States {
    if |log| == 0 then states else Next(After(states, log[..|log| - 1]), log[|log| - 1])
  }

  /** Whether the last IMAP start got its sockets in the end, when the one before the log did so or not. */
  function LastImapBind(states: States, first: bool, log: seq<Served>): bool {
    if |log| == 0 then first
    else
      var front, last := log[..|log| - 1], log[|log| - 1];
      if last.command == Set(Imap, true) && Switches(After(states, front), last) then last.start.binds
      else LastImapBind(states, first, front)
  }

  /** Command i of the log starts IMAP. */
  predicate StartsImap(states: States, log: seq<Served>, i: nat)
    requires i < |log|
  {
    log[i].command == Set(Imap, true) && Switches(After(states, log[..i]), log[i])
  }

  /** The last command that started IMAP got its sockets; without one, the start before the log did. */
  ghost predicate LastStartBound(states: States, first: bool, log: seq<Served>) {
    || (first && forall i | 0 <= i < |log| :: !StartsImap(states, log, i))
    || exists i :: BoundAt(states, log, i)
  }

  ghost predicate BoundAt(states: States, log: seq<Served>, i: int) {
    && 0 <= i < |log| && StartsImap(states, log, i) && log[i].start.binds
    && forall j | i < j < |log| :: !StartsImap(states, log, j)
  }

  lemma {:induction false} LastImapStart(states: States, first: bool, log: seq<Served>)
    ensures LastImapBind(states, first, log) <==> LastStartBound(states, first, log)
  {
    hide Switches, After;
    if |log| > 0 {
      var n := |log| - 1;
      var front := log[..n];
      LastImapStart(states, first, front);
      forall i | 0 <= i < n ensures StartsImap(states, front, i) == StartsImap(states, log, i) {
        assert front[..i] == log[..i];
      }
      if StartsImap(states, log, n) {
        assert log[n].start.binds ==> BoundAt(states, log, n);
      } else {
        forall i ensures BoundAt(states, log, i) == BoundAt(states, front, i) {
        }
      }
    }
  }

  /** A listener published as enabled need not be bound: the IMAP start passes, and its task then gets no socket. */
  lemma EnabledUnbound(states: States)
    requires states.imapState == State(true, false)
    ensures var log := [Served(Set(Imap, true), Startup(true, false))];
      && ReplyTo(states, log, 0) == Ok(State(true, true)) && After(states, log).imapState == State(true, true)
      && forall first :: !LastStartBound(states, first, log)
  {
    var log := [Served(Set(Imap, true), Startup(true, false))];
    assert log[..0] == [];
    assert StartsImap(states, log, 0);
  }

  /** What one more command does to the IMAP sockets. */
  function BoundAfter(states: States, bound: bool, s: Served): bool {
    if s.command.listener != Imap || !Switches(states, s) then bound else s.command.enabled && s.start.binds
  }

  /** What the register answers to command i of the log. */
  function ReplyTo(states: States, log: seq<Served>, i: nat): Reply
    requires i < |log|
  {
    Answer(After(states, log[..i]), log[i])
  }

  /** The last command for a listener that was answered Ok decides whether it is enabled. */
  ghost predicate DecidedBy(states: States, log: seq<Served>, listener: Listener, enabled: bool) {
    || (&& Get(states, listener).enabled == enabled
        && forall i | 0 <= i < |log| && log[i].command.listener == listener :: ReplyTo(states, log, i).Err?)
    || exists i :: 0 <= i < |log| && DecidesAt(states, log, listener, enabled, i)
  }

  ghost predicate DecidesAt(states: States, log: seq<Served>, listener: Listener, enabled: bool, i: nat)
    requires i < |log|
  {
    && log[i].command == Set(listener, enabled) && ReplyTo(states, log, i).Ok?
    && forall j | i < j < |log| && log[j].command.listener == listener :: ReplyTo(states, log, j).Err?
  }

  lemma {:induction false} AvailabilityFixed(states: States, log: seq<Served>, listener: Listener)
    ensures Get(After(states, log), listener).available == Get(states, listener).available
  {
    if |log| > 0 {
      AvailabilityFixed(states, log[..|log| - 1], listener);
    }
  }

  lemma ReplyPrefix(states: States, log: seq<Served>, i: nat)
    requires i < |log| - 1
    ensures ReplyTo(states, log[..|log| - 1], i) == ReplyTo(states, log, i)
  {
    assert log[..|log| - 1][..i] == log[..i];
  }

  /** What one command does to the listener it names, and what is answered; starts is true where nothing can fail. */
  ghost predicate Turns(was: State, now: State, on: bool, starts: bool, reply: Reply) {
    && (reply == Err(Conflict) <==> !was.available)
    && (reply == Err(StartFailed) <==> was.available && !was.enabled && on && !starts)
    && (reply.Ok? ==> reply == Ok(State(true, on)) && now == State(true, on))
    && (reply.Err? ==> now == was)
  }

  /** One command leaves the two listeners it does not name alone. */
  ghost predicate Serves(was: States, now: States, command: Command, starts: bool, reply: Reply) {
    match command.listener
    case Smtp =>
      && Turns(was.smtpState, now.smtpState, command.enabled, starts, reply)
      && now.imapState == was.imapState && now.jmapState == was.jmapState
    case Imap =>
      && Turns(was.imapState, now.imapState, command.enabled, starts, reply)
      && now.smtpState == was.smtpState && now.jmapState == was.jmapState
    case Jmap =>
      && Turns(was.jmapState, now.jmapState, command.enabled, true, reply)
      && now.smtpState == was.smtpState && now.imapState == was.imapState
  }

  lemma NextServes(states: States, s: Served)
    ensures Serves(states, Next(states, s), s.command, s.start.starts, Answer(states, s))
  {
  }

  /** Every command of a log is answered, and changes the states, as its place in the log tells. */
  lemma EachReply(states: States, log: seq<Served>, i: nat)
    requires i < |log|
    ensures Serves(
              After(states, log[..i]), After(states, log[..i + 1]), log[i].command, log[i].start.starts,
              ReplyTo(states, log, i))
  {
    assert log[..i + 1][..i] == log[..i];
    NextServes(After(states, log[..i]), log[i]);
    hide Next, Answer, Serves;
  }

  /** A register: each listener shows the value of its last successful command, whatever else was served between. */
  lemma {:induction false} LastOkDecides(states: States, log: seq<Served>, listener: Listener)
    ensures DecidedBy(states, log, listener, Get(After(states, log), listener).enabled)
  {
    hide Answer, Switches;
    if |log| > 0 {
      var n := |log| - 1;
      var front := log[..n];
      LastOkDecides(states, front, listener);
      forall i | 0 <= i < n ensures ReplyTo(states, front, i) == ReplyTo(states, log, i) {
        ReplyPrefix(states, log, i);
      }
      AnswerTells(After(states, front), log[n], listener);
      var enabled := Get(After(states, log), listener).enabled;
      if log[n].command.listener == listener && ReplyTo(states, log, n).Ok? {
        assert DecidesAt(states, log, listener, enabled, n);
      } else if exists i :: 0 <= i < n && DecidesAt(states, front, listener, enabled, i) {
        var i :| 0 <= i < n && DecidesAt(states, front, listener, enabled, i);
        assert log[i].command == Set(listener, enabled) && ReplyTo(states, log, i).Ok?;
        forall j | i < j < |log| && log[j].command.listener == listener ensures ReplyTo(states, log, j).Err? {
          if j < n {
            assert front[j].command.listener == listener;
          }
        }
        assert DecidesAt(states, log, listener, enabled, i);
      } else {
        forall i | 0 <= i < |log| && log[i].command.listener == listener ensures ReplyTo(states, log, i).Err? {
          if i < n {
            assert front[i].command.listener == listener;
          }
        }
      }
    }
  }

  /**
   * An Ok answer means the listener now has the asked value; an error, or another listener's command, changes nothing.
   */
  lemma AnswerTells(states: States, s: Served, listener: Listener)
    ensures s.command.listener == listener && Answer(states, s).Ok? ==>
      Get(Next(states, s), listener).enabled == s.command.enabled
    ensures s.command.listener != listener || Answer(states, s).Err? ==>
      Get(Next(states, s), listener) == Get(states, listener)
  {}

  /** What serving the log makes of the states, of the IMAP sockets, and of the answers. */
  ghost predicate Runs(
    states: States, first: bool, log: seq<Served>, now: States, imapBound: bool, replies: seq<Reply>)
  {
    && now == After(states, log)
    && imapBound == (now.imapState.enabled && LastImapBind(states, first, log))
    && |replies| == |log| && forall i | 0 <= i < |log| :: replies[i] == ReplyTo(states, log, i)
  }

  lemma RunsOn(
    states: States, first: bool, log: seq<Served>, now: States, imapBound: bool, replies: seq<Reply>, s: Served)
    requires Runs(states, first, log, now, imapBound, replies)
    ensures
      Runs(states, first, log + [s], Next(now, s), BoundAfter(now, imapBound, s), replies + [Answer(now, s)])
  {
    LogGrows(states, log, s);
    BindGrows(states, first, log, s);
    hide Answer, Next, After, LastImapBind, Switches, BoundAfter, ReplyTo;
  }

  lemma NothingServed(states: States, first: bool)
    ensures Commands([]) == [] && Runs(states, first, [], states, states.imapState.enabled && first, [])
  {
  }

  // -- The supervisor ----------------------------------------------------------------

  /** The bounded command channel. */
  const CAPACITY: nat := 8

  datatype Event =
    | Send(command: Command)
    | Serve(start: Startup)

  class Supervisor {
    /** Handles of the running listeners; a handle is the number of the start that made it. */
    var smtpHandle: Option<nat>
    var imapHandle: Option<nat>
    /** Whether sockets are bound. */
    var smtpBound: bool
    var imapBound: bool
    var published: States
    /** Commands sent and not yet received, oldest first. */
    var queue: seq<Command>
    /** One reply per served command, in the order the commands were sent. */
    var replies: seq<Reply>

    ghost var initial: States
    ghost var firstImapBind: bool
    ghost var log: seq<Served>
    ghost var sent: seq<Command>
    var smtpStarts: nat
    var smtpStops: nat
    var imapStarts: nat
    var imapStops: nat

    /** A published listener is enabled exactly while a handle is held, and handles are neither lost nor doubled. */
    ghost predicate Holds()
      reads this`smtpHandle, this`imapHandle, this`smtpBound, this`imapBound, this`published
      reads this`smtpStarts, this`smtpStops, this`imapStarts, this`imapStops
    {
      && published.smtpState.enabled == smtpHandle.Some? && (smtpHandle.Some? ==> published.smtpState.available)
      && published.imapState.enabled == imapHandle.Some? && (imapHandle.Some? ==> published.imapState.available)
      && smtpStarts == smtpStops + (if smtpHandle.Some? then 1 else 0)
      && imapStarts == imapStops + (if imapHandle.Some? then 1 else 0)
      && (smtpHandle.Some? ==> smtpHandle.value == smtpStarts) && (imapHandle.Some? ==> imapHandle.value == imapStarts)
      && published.jmapState.available
      && (published.smtpState.enabled ==> smtpBound) && (smtpBound ==> smtpHandle.Some?)
      && (imapBound ==> imapHandle.Some?)
    }

    /** What was served is what was sent, in order, and every reply is the register's. */
    ghost predicate Refines()
      reads this
    {
      && Runs(initial, firstImapBind, log, published, imapBound, replies)
      && sent == Commands(log) + queue && |queue| <= CAPACITY
    }

    ghost predicate Valid()
      reads this
    {
      Holds() && Refines()
    }

    /**
     * At every boundary: a listener published as enabled is available and held, exactly then; SMTP is bound then, and
     * IMAP if and only if its last start got its sockets in the end.
     */
    lemma AtBoundary()
      requires Valid()
      ensures published.smtpState.enabled <==> smtpHandle.Some? && published.smtpState.available
      ensures published.imapState.enabled <==> imapHandle.Some? && published.imapState.available
      ensures published.smtpState.enabled <==> smtpBound
      ensures published.imapState.enabled ==> (imapBound <==> LastStartBound(initial, firstImapBind, log))
      ensures !published.imapState.enabled ==> !imapBound
    {
      LastImapStart(initial, firstImapBind, log);
    }

    /**
     * Start with the listeners asked for and available; a failed start means no supervisor. SMTP is bound then, IMAP if
     * its task gets its sockets.
     */
    static method Start(
      smtpFactory: bool, imapFactory: bool, smtpEnabled: bool, imapEnabled: bool, jmapEnabled: bool,
      smtpStart: Startup, imapStart: Startup)
      returns (r: Option<Supervisor>)
      ensures r.Some? ==> fresh(r.value) && r.value.Valid() && r.value.queue == [] && r.value.log == []
      ensures r.Some? ==> r.value.published == r.value.initial == States(
        State(smtpFactory, smtpFactory && smtpEnabled), State(imapFactory, imapFactory && imapEnabled),
        State(true, jmapEnabled))
      ensures r.Some? ==> r.value.smtpBound == (smtpFactory && smtpEnabled)
      ensures r.Some? ==> r.value.imapBound == (imapFactory && imapEnabled && imapStart.binds)
      ensures r.Some? ==> r.value.firstImapBind == imapStart.binds
      ensures r.None? <==>
        (smtpFactory && smtpEnabled && !smtpStart.starts) || (imapFactory && imapEnabled && !imapStart.starts)
    {
      var states := States(State(smtpFactory, false), State(imapFactory, false), State(true, jmapEnabled));
      var smtpRun: Option<nat>, imapRun: Option<nat> := None, None;
      if smtpEnabled && smtpFactory {
        if !smtpStart.starts {
          return None;
        }
        smtpRun := Some(1);
        states := WithEnabled(states, Smtp, true);
      }
      if imapEnabled && imapFactory {
        if !imapStart.starts {
          return None;
        }
        imapRun := Some(1);
        states := WithEnabled(states, Imap, true);
      }
      var s := new Supervisor.Spawn(smtpRun, imapRun, states, imapStart.binds);
      return Some(s);
    }

    /** Spawn the command loop over what was started; the IMAP task binds, or does not. */
    constructor Spawn(smtpRun: Option<nat>, imapRun: Option<nat>, states: States, imapBinds: bool)
      requires states.smtpState.enabled == smtpRun.Some? && states.imapState.enabled == imapRun.Some?
      requires smtpRun.Some? ==> smtpRun.value == 1 && states.smtpState.available
      requires imapRun.Some? ==> imapRun.value == 1 && states.imapState.available
      requires states.jmapState.available
      ensures Valid() && published == initial == states && queue == [] && log == []
      ensures smtpBound == smtpRun.Some? && imapBound == (imapRun.Some? && imapBinds) && firstImapBind == imapBinds
    {
      smtpHandle, imapHandle, published, queue, replies := smtpRun, imapRun, states, [], [];
      smtpBound, imapBound := smtpRun.Some?, imapRun.Some? && imapBinds;
      initial, log, sent, firstImapBind := states, [], [], imapBinds;
      smtpStarts, smtpStops := if smtpRun.Some? then 1 else 0, 0;
      imapStarts, imapStops := if imapRun.Some? then 1 else 0, 0;
      NothingServed(states, imapBinds);
    }

    /** A client sends; with the channel full it has to wait. */
    method Enqueue(command: Command) returns (accepted: bool)
      requires Valid()
      modifies this`queue, this`sent
      ensures Valid() && accepted == (|old(queue)| < CAPACITY)
      ensures queue == if accepted then old(queue) + [command] else old(queue)
      ensures sent == if accepted then old(sent) + [command] else old(sent)
    {
      accepted := |queue| < CAPACITY;
      if accepted {
        queue := queue + [command];
        sent := sent + [command];
        assert Commands(log) + old(queue) + [command] == Commands(log) + queue;
      }
    }

    /** One turn of the command loop; nothing to do while the channel is empty. */
    method ServeNext(start: Startup)
      requires Valid()
      modifies this
      ensures Valid() && initial == old(initial) && firstImapBind == old(firstImapBind) && sent == old(sent)
      ensures |old(queue)| == 0 ==>
        log == old(log) && queue == old(queue) && published == old(published) && replies == old(replies)
      ensures |old(queue)| > 0 ==>
        && log == old(log) + [Served(old(queue)[0], start)] && queue == old(queue)[1..]
        && published == Next(old(published), Served(old(queue)[0], start))
        && replies == old(replies) + [Answer(old(published), Served(old(queue)[0], start))]
      ensures |old(queue)| > 0 ==>
        && |replies| == |old(replies)| + 1
        && Serves(old(published), published, old(queue)[0], start.starts, replies[|old(replies)|])
      ensures smtpHandle.Some? == published.smtpState.enabled && imapHandle.Some? == published.imapState.enabled
      ensures published.smtpState == old(published.smtpState) ==>
        smtpHandle == old(smtpHandle) && smtpStarts == old(smtpStarts) && smtpStops == old(smtpStops)
      ensures published.imapState == old(published.imapState) ==>
        imapHandle == old(imapHandle) && imapStarts == old(imapStarts) && imapStops == old(imapStops)
    {
      if |queue| > 0 {
        NextServes(published, Served(queue[0], start));
        hide Answer, Next, Serves, Commands, Runs;
        ServeOldest(start);
      }
    }

    method ServeOldest(start: Startup)
      requires Valid() && |queue| > 0
      modifies this
      ensures Valid() && initial == old(initial) && firstImapBind == old(firstImapBind) && sent == old(sent)
      ensures log == old(log) + [Served(old(queue)[0], start)] && queue == old(queue)[1..]
      ensures published == Next(old(published), Served(old(queue)[0], start))
      ensures replies == old(replies) + [Answer(old(published), Served(old(queue)[0], start))]
      ensures published.smtpState == old(published.smtpState) ==>
        smtpHandle == old(smtpHandle) && smtpStarts == old(smtpStarts) && smtpStops == old(smtpStops)
      ensures published.imapState == old(published.imapState) ==>
        imapHandle == old(imapHandle) && imapStarts == old(imapStarts) && imapStops == old(imapStops)
    {
      hide Answer, Next, Commands, Holds, Runs, BoundAfter;
      var command, rest := queue[0], queue[1..];
      ghost var s := Served(command, start);
      RunsOn(initial, firstImapBind, log, published, imapBound, replies, s);
      CommandsGrow(log, s, queue, rest);
      var result := Decide(command, start);
      queue := rest;
      replies := replies + [result];
      log := log + [s];
    }

    /** Refuse an unavailable listener, leave an unchanged one alone, otherwise apply the change. */
    method Decide(command: Command, start: Startup) returns (result: Reply)
      requires Holds()
      modifies this`smtpHandle, this`imapHandle, this`smtpBound, this`imapBound, this`published
      modifies this`smtpStarts, this`smtpStops, this`imapStarts, this`imapStops
      ensures Holds()
      ensures published == Next(old(published), Served(command, start))
      ensures result == Answer(old(published), Served(command, start))
      ensures imapBound == BoundAfter(old(published), old(imapBound), Served(command, start))
      ensures published.smtpState == old(published.smtpState) ==>
        smtpHandle == old(smtpHandle) && smtpStarts == old(smtpStarts) && smtpStops == old(smtpStops)
      ensures published.imapState == old(published.imapState) ==>
        imapHandle == old(imapHandle) && imapStarts == old(imapStarts) && imapStops == old(imapStops)
    {
      var now := Get(published, command.listener);
      if !now.available {
        result := Err(Conflict);
      } else if now.enabled == command.enabled {
        result := Ok(now);
      } else {
        result := Apply(command.listener, command.enabled, start);
      }
    }

    /** Start or stop the listener, then publish; a failed start returns before anything is published. */
    method Apply(listener: Listener, enabled: bool, start: Startup) returns (result: Reply)
      requires Holds() && Get(published, listener).available && Get(published, listener).enabled != enabled
      modifies this`smtpHandle, this`imapHandle, this`smtpBound, this`imapBound, this`published
      modifies this`smtpStarts, this`smtpStops, this`imapStarts, this`imapStops
      ensures Holds()
      ensures published == Next(old(published), Served(Set(listener, enabled), start))
      ensures result == Answer(old(published), Served(Set(listener, enabled), start))
      ensures imapBound == BoundAfter(old(published), old(imapBound), Served(Set(listener, enabled), start))
      ensures Serves(old(published), published, Set(listener, enabled), start.starts, result)
      ensures published.smtpState == old(published.smtpState) ==>
        smtpHandle == old(smtpHandle) && smtpStarts == old(smtpStarts) && smtpStops == old(smtpStops)
      ensures published.imapState == old(published.imapState) ==>
        imapHandle == old(imapHandle) && imapStarts == old(imapStarts) && imapStops == old(imapStops)
    {
      match listener {
        case Smtp =>
          if enabled {
            if !start.starts {
              return Err(StartFailed);
            }
            smtpStarts := smtpStarts + 1;
            smtpHandle := Some(smtpStarts);
            smtpBound := true;
          } else if smtpHandle.Some? {
            smtpHandle := None;
            smtpBound := false;
            smtpStops := smtpStops + 1;
          }
        case Imap =>
          if enabled {
            if !start.starts {
              return Err(StartFailed);
            }
            imapStarts := imapStarts + 1;
            imapHandle := Some(imapStarts);
            imapBound := start.binds;
          } else if imapHandle.Some? {
            imapHandle := None;
            imapBound := false;
            imapStops := imapStops + 1;
          }
        case Jmap =>
      }
      published := WithEnabled(published, listener, enabled);
      result := Ok(Get(published, listener));
    }

    /** Once no command is left, whatever is held is stopped. */
    method Close()
      requires Valid() && queue == []
      modifies this`smtpHandle, this`imapHandle, this`smtpBound, this`imapBound, this`smtpStops, this`imapStops
      ensures smtpHandle == None && imapHandle == None && !smtpBound && !imapBound
      ensures smtpStarts == smtpStops && imapStarts == imapStops
    {
      if smtpHandle.Some? {
        smtpHandle := None;
        smtpBound := false;
        smtpStops := smtpStops + 1;
      }
      if imapHandle.Some? {
        imapHandle := None;
        imapBound := false;
        imapStops := imapStops + 1;
      }
    }

    /** The commands sent and served are those the interleaving tells, and the rest waits. */
    ghost predicate Tells(events: seq<Event>)
      reads this
    {
      sent == Accepted(events) && |queue| == Waiting(events) && log == Paired(Accepted(events), Starts(events))
    }

    /** One event: a send, which may have to wait, or a turn of the loop. */
    method Happen(event: Event, ghost before: seq<Event>)
      requires Valid() && Tells(before)
      modifies this
      ensures Valid() && Tells(before + [event]) && initial == old(initial) && firstImapBind == old(firstImapBind)
    {
      hide Paired, Commands, Next, Answer, Holds, After, ReplyTo, Accepted, Starts, Waiting;
      OneMoreEvent(before, event);
      EachAcceptedOnce(before);
      match event {
        case Send(command) =>
          PairedPrefix(sent, [command], Starts(before));
          var accepted := Enqueue(command);
        case Serve(start) =>
          if queue != [] {
            NextInLine(log, queue);
            PairedGrows(sent, Starts(before), start);
          }
          ServeNext(start);
      }
    }

    /** With the senders gone the loop serves what still waits. */
    method Drain(lastStarts: seq<Startup>, ghost starts: seq<Startup>)
      requires Valid() && |queue| <= |lastStarts| && log == Paired(sent, starts) && |sent| == |starts| + |queue|
      modifies this
      ensures Valid() && initial == old(initial) && firstImapBind == old(firstImapBind)
      ensures sent == old(sent) && queue == []
      ensures log == Paired(sent, starts + lastStarts[..old(|queue|)])
    {
      hide Paired, Commands, Next, Answer, Holds, After, ReplyTo;
      ghost var n := |queue|;
      var k := 0;
      assert starts + lastStarts[..0] == starts;
      while |queue| > 0
        invariant Valid() && initial == old(initial) && firstImapBind == old(firstImapBind)
        invariant sent == old(sent) && k + |queue| == n
        invariant log == Paired(sent, starts + lastStarts[..k])
        decreases |queue|
      {
        NextInLine(log, queue);
        assert starts + lastStarts[..k] + [lastStarts[k]] == starts + lastStarts[..k + 1];
        PairedGrows(sent, starts + lastStarts[..k], lastStarts[k]);
        ServeNext(lastStarts[k]);
        k := k + 1;
      }
    }

    /**
     * A whole life: any interleaving of sends by any clients with turns of the loop, then the senders go away, the
     * loop drains the channel and stops what it holds. Which sends were accepted and what starting came to is
     * told by the interleaving alone; every accepted command was served once, in order, and answered as the register
     * answers it.
     */
    method Live(events: seq<Event>, lastStarts: seq<Startup>)
      requires Valid() && log == [] && queue == [] && |lastStarts| == CAPACITY
      modifies this
      ensures smtpHandle == None && imapHandle == None && smtpStarts == smtpStops && imapStarts == imapStops
      ensures !smtpBound && !imapBound
      ensures initial == old(initial) && firstImapBind == old(firstImapBind)
      ensures queue == [] && sent == Accepted(events)
      ensures log == Paired(Accepted(events), Starts(events) + lastStarts[..Waiting(events)])
      ensures |replies| == |log| && forall i | 0 <= i < |log| :: replies[i] == ReplyTo(initial, log, i)
      ensures published == After(initial, log)
    {
      hide Paired, Commands, Next, Answer, Holds, After, ReplyTo;
      NothingYet();
      assert events[..0] == [];
      for k := 0 to |events|
        invariant Valid() && Tells(events[..k]) && initial == old(initial) && firstImapBind == old(firstImapBind)
      {
        assert events[..k + 1] == events[..k] + [events[k]];
        Happen(events[k], events[..k]);
      }
      assert events[..|events|] == events;
      EachAcceptedOnce(events);
      Drain(lastStarts, Starts(events));
      Close();
    }
  }

  lemma NothingYet()
    ensures Paired([], []) == [] && Commands([]) == []
  {
  }

  // -- What an interleaving means ------------------------------------------------------

  /** How many commands wait in the channel. */
  ghost function Waiting(events: seq<Event>): (n: nat)
    ensures n <= CAPACITY
  {
    if |events| == 0 then 0
    else
      var before := Waiting(events[..|events| - 1]);
      match events[|events| - 1]
      case Send(_) => if before == CAPACITY then before else before + 1
      case Serve(_) => if before == 0 then 0 else before - 1
  }

  /** The commands that were accepted, oldest first: all but those sent while the channel was full. */
  ghost function Accepted(events: seq<Event>): seq<Command> {
    if |events| == 0 then []
    else
      var front, last := events[..|events| - 1], events[|events| - 1];
      Accepted(front) + if last.Send? && Waiting(front) < CAPACITY then [last.command] else []
  }

  /** What starting would have come to at each turn that had a command to serve. */
  ghost function Starts(events: seq<Event>): seq<Startup> {
    if |events| == 0 then []
    else
      var front, last := events[..|events| - 1], events[|events| - 1];
      Starts(front) + if last.Serve? && Waiting(front) > 0 then [last.start] else []
  }

  /** The first commands, each with what starting comes to. */
  ghost function Paired(commands: seq<Command>, starts: seq<Startup>): (log: seq<Served>)
    ensures |log| == if |starts| <= |commands| then |starts| else |commands|
  {
    seq(if |starts| <= |commands| then |starts| else |commands|, i requires 0 <= i < |starts| && i < |commands| =>
      Served(commands[i], starts[i]))
  }

  /** Every accepted command is served or waits, and a send is turned away exactly while eight commands wait. */
  lemma {:induction false} EachAcceptedOnce(events: seq<Event>)
    ensures |Accepted(events)| == |Starts(events)| + Waiting(events)
    ensures forall command :: Accepted(events + [Send(command)]) == Accepted(events) <==> Waiting(events) == 8
  {
    if |events| > 0 { EachAcceptedOnce(events[..|events| - 1]); }
    forall command ensures (events + [Send(command)])[..|events|] == events {
    }
  }

  lemma OneMoreEvent(before: seq<Event>, event: Event)
    ensures var all, n := before + [event], Waiting(before);
      && (event.Send? && n < CAPACITY ==>
            && Waiting(all) == n + 1 && Accepted(all) == Accepted(before) + [event.command]
            && Starts(all) == Starts(before))
      && (event.Serve? && n > 0 ==>
            Waiting(all) == n - 1 && Accepted(all) == Accepted(before) && Starts(all) == Starts(before) + [event.start])
      && ((event.Send? && n == CAPACITY) || (event.Serve? && n == 0) ==>
            Waiting(all) == n && Accepted(all) == Accepted(before) && Starts(all) == Starts(before))
  {
    assert (before + [event])[..|before|] == before;
  }

  lemma NextInLine(log: seq<Served>, queue: seq<Command>)
    requires queue != []
    ensures |Commands(log)| == |log| && (Commands(log) + queue)[|log|] == queue[0]
  {
    CommandsLength(log);
  }

  lemma PairedGrows(commands: seq<Command>, starts: seq<Startup>, start: Startup)
    requires |starts| < |commands|
    ensures Paired(commands, starts + [start]) == Paired(commands, starts) + [Served(commands[|starts|], start)]
  {
  }

  lemma PairedPrefix(commands: seq<Command>, more: seq<Command>, starts: seq<Startup>)
    requires |starts| <= |commands|
    ensures Paired(commands + more, starts) == Paired(commands, starts)
  {
  }

  ghost function Commands(log: seq<Served>): seq<Command> {
    if |log| == 0 then [] else Commands(log[..|log| - 1]) + [log[|log| - 1].command]
  }

  lemma {:induction false} CommandsLength(log: seq<Served>)
    ensures |Commands(log)| == |log|
  {
    if |log| > 0 {
      CommandsLength(log[..|log| - 1]);
    }
  }

  lemma CommandsGrow(log: seq<Served>, s: Served, queue: seq<Command>, rest: seq<Command>)
    requires queue == [s.command] + rest
    ensures Commands(log + [s]) + rest == Commands(log) + queue
  {
    assert (log + [s])[..|log|] == log;
    assert Commands(log) + [s.command] + rest == Commands(log) + queue;
  }

  lemma BindGrows(states: States, first: bool, log: seq<Served>, s: Served)
    ensures var now, after := After(states, log), After(states, log + [s]);
      BoundAfter(now, now.imapState.enabled && LastImapBind(states, first, log), s)
      == (after.imapState.enabled && LastImapBind(states, first, log + [s]))
  {
    assert (log + [s])[..|log|] == log;
  }

  lemma LogGrows(states: States, log: seq<Served>, s: Served)
    ensures After(states, log + [s]) == Next(After(states, log), s)
    ensures ReplyTo(states, log + [s], |log|) == Answer(After(states, log), s)
    ensures forall i | 0 <= i < |log| :: ReplyTo(states, log + [s], i) == ReplyTo(states, log, i)
  {
    assert (log + [s])[..|log|] == log;
    forall i | 0 <= i < |log| ensures ReplyTo(states, log + [s], i) == ReplyTo(states, log, i) {
      assert (log + [s])[..i] == log[..i];
    }
  }
}
