/**
 * The desktop broker: any number of SQL clients compete for one slot, and one worker thread runs their
 * commands, one after the other, on one native session that is reopened between two clients.
 */
module Broker {
  import opened Prelude

  type Client = nat

  /** Commands on their way to the worker. */
  datatype Command = Startup(client: Client) | Execute(client: Client) | Reset(client: Client) | Backup | Shutdown

  /** Where the thread of a client that got the slot stands; the others need no record. */
  datatype Stage =
    | Claimed
    | AwaitStartup(replied: bool)
    | Serving
    | AwaitExecute(replied: bool)
    | Leaving
    | Left
    | AwaitReset(replied: bool)

  datatype Worker = Waiting | Running(client: Client) | Ended

  datatype State = State(
    occupied: bool,
    active: Option<Client>,
    /** A cancel request that matched this client's key and still holds the lock on `active`. */
    cancelling: Option<Client>,
    /** That cancel request has seen the flag below up and will interrupt the backend. */
    armed: bool,
    executing: bool,
    closing: bool,
    channel: seq<Command>,
    worker: Worker,
    stages: map<Client, Stage>,
    /** Clients whose commands ran on the native session since it was opened. */
    touched: set<Client>)

  predicate Init(s: State) {
    s == State(false, None, None, false, false, false, [], Waiting, map[], {})
  }

  // ---------------------------------------------------------------------------
  // SQL clients
  // ---------------------------------------------------------------------------

  predicate At(s: State, c: Client, stage: Stage) { c in s.stages && s.stages[c] == stage }

  function Move(s: State, c: Client, stage: Stage): State { s.(stages := s.stages[c := stage]) }

  function Sent(s: State, command: Command): State { s.(channel := s.channel + [command]) }

  /** The slot is taken by one atomic swap; a loser is told so and goes. */
  predicate ClaimStep(s: State, s': State, c: Client) {
    c !in s.stages && s' == if s.occupied then s else Move(s, c, Claimed).(occupied := true)
  }

  predicate SendStartupStep(s: State, s': State, c: Client) {
    && At(s, c, Claimed)
    && s' == if s.worker.Ended? then Move(s, c, Leaving) else Sent(Move(s, c, AwaitStartup(false)), Startup(c))
  }

  /** The client is connected: its key is published under the lock. */
  predicate ServeStep(s: State, s': State, c: Client) {
    At(s, c, AwaitStartup(true)) && s.cancelling.None? && s' == Move(s, c, Serving).(active := Some(c))
  }

  /** The flag goes up before the command is sent; without a socket to answer on nothing is sent. */
  predicate SendExecuteStep(s: State, s': State, c: Client, cloned: bool) {
    && At(s, c, Serving)
    && s' == if cloned && !s.worker.Ended? then Sent(Move(s, c, AwaitExecute(false)), Execute(c)).(executing := true)
             else Move(s, c, Leaving).(executing := true)
  }

  predicate AnsweredStep(s: State, s': State, c: Client) {
    At(s, c, AwaitExecute(true)) && s' == Move(s, c, Serving)
  }

  /** On its own account, on an error, or because the worker is gone; never while a command is in the works. */
  predicate LeaveStep(s: State, s': State, c: Client) {
    && c in s.stages
    && (|| s.stages[c] == Serving || s.stages[c] == AwaitStartup(true) || s.stages[c] == AwaitExecute(true)
        || (s.worker.Ended? && (s.stages[c].AwaitStartup? || s.stages[c].AwaitExecute?)))
    && s' == Move(s, c, Leaving)
  }

  predicate WithdrawStep(s: State, s': State, c: Client) {
    At(s, c, Leaving) && s.cancelling.None? && s' == Move(s, c, Left).(active := None)
  }

  predicate SendResetStep(s: State, s': State, c: Client) {
    At(s, c, Left) && !s.worker.Ended? && s' == Sent(Move(s, c, AwaitReset(false)), Reset(c))
  }

  predicate ReleaseStep(s: State, s': State, c: Client) {
    && c in s.stages
    && (s.stages[c] == AwaitReset(true) || (s.worker.Ended? && (s.stages[c].AwaitReset? || s.stages[c] == Left)))
    && s' == s.(stages := s.stages - {c}, occupied := false)
  }

  // ---------------------------------------------------------------------------
  // Cancel requests and the owner
  // ---------------------------------------------------------------------------

  /** The key is compared with the published one under the lock, which is kept. */
  predicate MatchStep(s: State, s': State, c: Client) {
    s.cancelling.None? && s.active == Some(c) && s' == s.(cancelling := Some(c))
  }

  /** The flag is looked at; if it is down there is nothing to do and the lock goes. */
  predicate LookStep(s: State, s': State) {
    s.cancelling.Some? && !s.armed && s' == if s.executing then s.(armed := true) else s.(cancelling := None)
  }

  /** The backend is interrupted; then the lock goes. */
  predicate DeliverStep(s: State, s': State) {
    s.armed && s' == s.(cancelling := None, armed := false)
  }

  predicate OwnerStep(s: State, s': State, command: Command) {
    !s.worker.Ended? && (command == Backup || (command == Shutdown && s.closing)) && s' == Sent(s, command)
  }

  // ---------------------------------------------------------------------------
  // The worker
  // ---------------------------------------------------------------------------

  predicate Takes(s: State, command: Command) { s.worker == Waiting && s.channel != [] && s.channel[0] == command }

  function Taken(s: State): State
    requires s.channel != []
  {
    s.(channel := s.channel[1..])
  }

  predicate RunStartupStep(s: State, s': State, c: Client) {
    Takes(s, Startup(c)) && s' == Move(Taken(s), c, AwaitStartup(true)).(touched := s.touched + {c})
  }

  /** A closing broker executes nothing more. */
  predicate BeginExecuteStep(s: State, s': State, c: Client) {
    && Takes(s, Execute(c))
    && s' == if s.closing then Move(Taken(s), c, AwaitExecute(true)).(executing := false)
             else Taken(s).(worker := Running(c), touched := s.touched + {c})
  }

  predicate EndExecuteStep(s: State, s': State, c: Client) {
    s.worker == Running(c) && s' == Move(s, c, AwaitExecute(true)).(worker := Waiting, executing := false)
  }

  /** The session is replaced; a failure to do so closes the broker before anyone is told. */
  predicate RunResetStep(s: State, s': State, c: Client, reopened: bool) {
    && Takes(s, Reset(c))
    && var t := Move(Taken(s), c, AwaitReset(true));
       s' == if s.closing then t else if reopened then t.(touched := {}) else t.(closing := true)
  }

  predicate RunOwnerStep(s: State, s': State) {
    && s.worker == Waiting && s.channel != []
    && if s.channel[0] == Backup then s' == Taken(s)
       else s.channel[0] == Shutdown && s' == s.(worker := Ended, channel := [])
  }

  datatype Action =
    | Claim(c: Client) | SendStartup(c: Client) | Serve(c: Client) | SendExecute(c: Client, cloned: bool)
    | Answered(c: Client) | Leave(c: Client) | Withdraw(c: Client) | SendReset(c: Client) | Release(c: Client)
    | Match(c: Client) | Look | Deliver | Close | Own(command: Command)
    | RunStartup(c: Client) | BeginExecute(c: Client) | EndExecute(c: Client) | RunReset(c: Client, reopened: bool)
    | RunOwner

  predicate Step(s: State, s': State, a: Action) {
    match a
    case Claim(c) => ClaimStep(s, s', c)
    case SendStartup(c) => SendStartupStep(s, s', c)
    case Serve(c) => ServeStep(s, s', c)
    case SendExecute(c, cloned) => SendExecuteStep(s, s', c, cloned)
    case Answered(c) => AnsweredStep(s, s', c)
    case Leave(c) => LeaveStep(s, s', c)
    case Withdraw(c) => WithdrawStep(s, s', c)
    case SendReset(c) => SendResetStep(s, s', c)
    case Release(c) => ReleaseStep(s, s', c)
    case Match(c) => MatchStep(s, s', c)
    case Look => LookStep(s, s')
    case Deliver => DeliverStep(s, s')
    case Close => s' == s.(closing := true)
    case Own(command) => OwnerStep(s, s', command)
    case RunStartup(c) => RunStartupStep(s, s', c)
    case BeginExecute(c) => BeginExecuteStep(s, s', c)
    case EndExecute(c) => EndExecuteStep(s, s', c)
    case RunReset(c, reopened) => RunResetStep(s, s', c, reopened)
    case RunOwner => RunOwnerStep(s, s')
  }

  // ---------------------------------------------------------------------------
  // The invariant
  // ---------------------------------------------------------------------------

  /** At most one client holds the slot. */
  predicate SlotOk(s: State) {
    && (s.occupied <==> s.stages != map[])
    && forall c, d :: c in s.stages && d in s.stages ==> c == d
  }

  /** The key is no longer published. */
  predicate Withdrawn(stage: Stage) { stage.Left? || stage.AwaitReset? }

  /** Before the startup has run, or after the reset has. */
  predicate Untouching(stage: Stage) {
    stage == Claimed || stage == AwaitStartup(false) || stage == AwaitReset(true)
  }

  /** The published key and a matched cancel request belong to the holder, before it withdraws. */
  predicate ActiveOk(s: State) {
    && (s.active.Some? ==> s.active.value in s.stages && !Withdrawn(s.stages[s.active.value]))
    && (s.cancelling.Some? ==> s.cancelling == s.active)
    && (s.armed ==> s.cancelling.Some?)
  }

  predicate ClientCommand(m: Command) { m.Startup? || m.Execute? || m.Reset? }

  /** The command a client at this stage is waiting for. */
  predicate Awaits(m: Command, stage: Stage) {
    || (m.Startup? && stage == AwaitStartup(false))
    || (m.Execute? && stage == AwaitExecute(false))
    || (m.Reset? && stage == AwaitReset(false))
  }

  /** Every client command is the one its client waits for, and there is at most one. */
  predicate ChannelOk(s: State) {
    && (forall i :: 0 <= i < |s.channel| && ClientCommand(s.channel[i]) ==>
          s.channel[i].client in s.stages && Awaits(s.channel[i], s.stages[s.channel[i].client]))
    && (forall i, j :: 0 <= i < j < |s.channel| ==> !(ClientCommand(s.channel[i]) && ClientCommand(s.channel[j])))
    && (forall i :: 0 <= i < |s.channel| ==> s.channel[i] == Shutdown ==> s.closing)
  }

  predicate WorkerOk(s: State) {
    && (s.worker.Running? ==> At(s, s.worker.client, AwaitExecute(false)) && s.touched == {s.worker.client})
    && (s.worker.Running? ==> forall i :: 0 <= i < |s.channel| ==> !ClientCommand(s.channel[i]))
    && (s.worker.Ended? ==> s.closing && s.channel == [])
  }

  /** Until the broker closes, the session has been touched by nobody but the holder. */
  predicate SessionOk(s: State) {
    !s.closing ==>
      && (forall t :: t in s.touched ==> t in s.stages)
      && (forall c :: c in s.stages && Untouching(s.stages[c]) ==> s.touched == {})
  }

  predicate Inv(s: State) { SlotOk(s) && ActiveOk(s) && ChannelOk(s) && WorkerOk(s) && SessionOk(s) }

  /** A step that changes neither the channel nor the worker, by a client not waiting for a command. */
  lemma ClientStepKeeps(s: State, s': State, a: Action)
    requires Inv(s) && Step(s, s', a)
    requires a.Claim? || a.Serve? || a.Answered? || a.Withdraw? || a.Release?
    ensures Inv(s')
  {
  }

  lemma LeaveKeeps(s: State, s': State, c: Client)
    requires Inv(s) && LeaveStep(s, s', c)
    ensures Inv(s')
  {
  }

  /** The sender had no command under way, so its new one is the only one. */
  lemma SentKeepsChannel(s: State, c: Client, stage: Stage, m: Command)
    requires SlotOk(s) && ChannelOk(s) && c in s.stages && ClientCommand(m) && m.client == c && Awaits(m, stage)
    requires forall k: Command :: ClientCommand(k) && k.client == c ==> !Awaits(k, s.stages[c])
    ensures ChannelOk(Sent(Move(s, c, stage), m))
  {
    var t := Sent(Move(s, c, stage), m);
    assert t.channel[..|s.channel|] == s.channel;
    assert forall i :: 0 <= i < |s.channel| ==> !ClientCommand(s.channel[i]);
  }

  lemma SendStartupKeeps(s: State, s': State, c: Client)
    requires Inv(s) && SendStartupStep(s, s', c)
    ensures Inv(s')
  {
    hide ChannelOk;
    if s.worker.Ended? { ChannelEmpty(s, s'); } else { SentKeepsChannel(s, c, AwaitStartup(false), Startup(c)); }
    assert At(s, c, Claimed);
  }

  lemma ChannelEmpty(s: State, s': State)
    requires s'.channel == s.channel == []
    ensures ChannelOk(s')
  {
  }

  lemma SendExecuteKeeps(s: State, s': State, c: Client, cloned: bool)
    requires Inv(s) && SendExecuteStep(s, s', c, cloned)
    ensures Inv(s')
  {
    if cloned && !s.worker.Ended? {
      SentKeepsChannel(s, c, AwaitExecute(false), Execute(c));
      ChannelFrame(Sent(Move(s, c, AwaitExecute(false)), Execute(c)), s');
    }
    hide ChannelOk;
    assert At(s, c, Serving);
  }

  lemma ChannelFrame(s: State, s': State)
    requires ChannelOk(s) && s'.channel == s.channel && s'.stages == s.stages && s'.closing == s.closing
    ensures ChannelOk(s')
  {
  }

  lemma SendResetKeeps(s: State, s': State, c: Client)
    requires Inv(s) && SendResetStep(s, s', c)
    ensures Inv(s')
  {
    hide ChannelOk;
    SentKeepsChannel(s, c, AwaitReset(false), Reset(c));
    assert At(s, c, Left);
  }

  lemma OwnKeeps(s: State, s': State, m: Command)
    requires Inv(s) && OwnerStep(s, s', m)
    ensures Inv(s')
  {
    assert s'.channel[..|s.channel|] == s.channel;
  }

  lemma OtherKeeps(s: State, s': State, a: Action)
    requires Inv(s) && Step(s, s', a) && (a.Match? || a.Look? || a.Deliver? || a.Close?)
    ensures Inv(s')
  {
  }

  lemma StartupKeeps(s: State, s': State, c: Client)
    requires Inv(s) && RunStartupStep(s, s', c)
    ensures Inv(s')
  {
  }

  lemma ExecuteKeeps(s: State, s': State, a: Action)
    requires Inv(s) && Step(s, s', a) && (a.BeginExecute? || a.EndExecute?)
    ensures Inv(s')
  {
  }

  lemma ResetKeeps(s: State, s': State, c: Client, reopened: bool)
    requires Inv(s) && RunResetStep(s, s', c, reopened)
    ensures Inv(s')
  {
  }

  lemma RunOwnerKeeps(s: State, s': State)
    requires Inv(s) && RunOwnerStep(s, s')
    ensures Inv(s')
  {
  }

  lemma StepKeeps(s: State, s': State, a: Action)
    requires Inv(s) && Step(s, s', a)
    ensures Inv(s')
  {
    hide Inv, ClaimStep, SendStartupStep, ServeStep, SendExecuteStep, AnsweredStep, LeaveStep, WithdrawStep,
      SendResetStep, ReleaseStep, MatchStep, LookStep, DeliverStep, OwnerStep, RunStartupStep, BeginExecuteStep,
      EndExecuteStep, RunResetStep, RunOwnerStep;
    match a
    case SendStartup(c) => SendStartupKeeps(s, s', c);
    case SendExecute(c, cloned) => SendExecuteKeeps(s, s', c, cloned);
    case SendReset(c) => SendResetKeeps(s, s', c);
    case Leave(c) => LeaveKeeps(s, s', c);
    case Own(m) => OwnKeeps(s, s', m);
    case Match(_) => OtherKeeps(s, s', a);
    case Look => OtherKeeps(s, s', a);
    case Deliver => OtherKeeps(s, s', a);
    case Close => OtherKeeps(s, s', a);
    case RunStartup(c) => StartupKeeps(s, s', c);
    case BeginExecute(_) => ExecuteKeeps(s, s', a);
    case EndExecute(_) => ExecuteKeeps(s, s', a);
    case RunReset(c, reopened) => ResetKeeps(s, s', c, reopened);
    case RunOwner => RunOwnerKeeps(s, s');
    case _ => ClientStepKeeps(s, s', a);
  }

  // ---------------------------------------------------------------------------
  // Whole runs
  // ---------------------------------------------------------------------------

  datatype Run = Start(first: State) | Then(before: Run, action: Action, next: State)

  function Last(r: Run): State { if r.Start? then r.first else r.next }

  predicate IsRun(r: Run) {
    match r
    case Start(s) => Init(s)
    case Then(before, a, s) => IsRun(before) && Step(Last(before), s, a)
  }

  lemma {:induction false} RunKeeps(r: Run)
    requires IsRun(r)
    ensures Inv(Last(r))
  {
    hide Step;
    if r.Then? {
      hide Inv;
      RunKeeps(r.before);
      StepKeeps(Last(r.before), r.next, r.action);
    }
  }

  /** The session an Execute runs on has been touched, since it was opened, by no client but its own. */
  lemma ExecuteIsIsolated(r: Run)
    requires IsRun(r) && Last(r).worker.Running?
    ensures Last(r).touched == {Last(r).worker.client} && At(Last(r), Last(r).worker.client, AwaitExecute(false))
  {
    RunKeeps(r);
  }

  /** Once the broker closes, no command begins to run any more. */
  lemma ClosingRunsNothing(r: Run)
    requires IsRun(r) && r.Then? && Last(r.before).closing && !Last(r.before).worker.Running?
    ensures !r.next.worker.Running?
  {
    if r.next.worker.Running? { RunsOnlyBegun(Last(r.before), r.next, r.action); }
  }

  /** Only the step that takes an Execute makes the worker run it. */
  lemma RunsOnlyBegun(s: State, s': State, a: Action)
    requires Step(s, s', a) && s'.worker.Running? && !s.worker.Running?
    ensures a.BeginExecute? && !s.closing && s'.worker.client == a.c && Takes(s, Execute(a.c))
  {
  }

  /** Whatever the worker has done for a client, its reply is there, and the client can go on. */
  lemma RepliesAreSent(r: Run)
    requires IsRun(r) && r.Then?
    ensures r.action.RunStartup? ==> At(r.next, r.action.c, AwaitStartup(true)) && r.action.c in r.next.touched
    ensures r.action.EndExecute? ==> At(r.next, r.action.c, AwaitExecute(true)) && r.next.worker == Waiting
    ensures r.action.BeginExecute? && Last(r.before).closing ==> At(r.next, r.action.c, AwaitExecute(true))
    ensures r.action.BeginExecute? && !Last(r.before).closing ==>
      r.next.worker == Running(r.action.c) && r.action.c in r.next.touched
    ensures r.action.RunReset? ==> At(r.next, r.action.c, AwaitReset(true))
    ensures r.action.RunReset? && !Last(r.before).closing ==>
      if r.action.reopened then r.next.touched == {} else r.next.closing
  {
    hide ClaimStep, SendStartupStep, ServeStep, SendExecuteStep, AnsweredStep, LeaveStep, WithdrawStep, SendResetStep,
      ReleaseStep, MatchStep, LookStep, DeliverStep, OwnerStep, RunOwnerStep;
  }

  /** A shutdown ends the worker and drops what was waiting; a backup for the owner changes nothing a client sees. */
  lemma OwnerOutcomes(r: Run)
    requires IsRun(r) && r.Then? && r.action.RunOwner?
    ensures var s := Last(r.before);
      && s.channel != [] && (s.channel[0] == Shutdown || s.channel[0] == Backup)
      && (s.channel[0] == Shutdown ==> s.closing && r.next == s.(worker := Ended, channel := []))
      && (s.channel[0] == Backup ==> r.next == s.(channel := s.channel[1..]))
  {
    RunKeeps(r.before);
  }

  /** Once it has ended, the worker takes no command any more. */
  lemma EndedStays(r: Run)
    requires IsRun(r) && r.Then? && Last(r.before).worker.Ended?
    ensures r.next.worker.Ended? && r.next.channel == [] && r.next.touched == Last(r.before).touched
  {
    RunKeeps(r.before);
    EndedStep(Last(r.before), r.next, r.action);
  }

  lemma EndedStep(s: State, s': State, a: Action)
    requires Step(s, s', a) && s.worker.Ended? && s.channel == []
    ensures s'.worker.Ended? && s'.channel == [] && s'.touched == s.touched
  {
  }

  /** From the match of its key to its delivery a cancel request concerns the one client that holds the slot. */
  lemma CancelConcernsHolder(r: Run)
    requires IsRun(r) && Last(r).cancelling.Some?
    ensures var s, c := Last(r), Last(r).cancelling.value;
      && s.active == Some(c) && s.occupied && s.stages.Keys == {c}
      && (s.worker.Running? ==> s.worker.client == c)
      && (forall i :: 0 <= i < |s.channel| && ClientCommand(s.channel[i]) ==> s.channel[i].client == c)
  {
    RunKeeps(r);
    var s, c := Last(r), Last(r).cancelling.value;
    assert c in s.stages;
  }

  // ---------------------------------------------------------------------------
  // The executing flag
  // ---------------------------------------------------------------------------

  /** A command of some client is running or on its way. */
  predicate Commanded(s: State) {
    s.worker.Running? || exists i :: 0 <= i < |s.channel| && s.channel[i].Execute?
  }

  predicate Commands(s: State, c: Client) { s.worker == Running(c) || Execute(c) in s.channel }

  /** Whether a step leaves the flag up with no command to take it down, given whether it was so before. */
  predicate LeftAfter(s: State, a: Action, left: bool) {
    match a
    case SendExecute(_, cloned) => left || !cloned || s.worker.Ended?
    case BeginExecute(_) => left && !s.closing
    case EndExecute(_) => false
    case RunOwner => left || (s.channel != [] && s.channel[0] == Shutdown && Commanded(s))
    case _ => left
  }

  /**
   * Since the last command ended a client has put the flag up and failed to send its command, or the shutdown has
   * dropped one that was waiting.
   */
  predicate FlagLeft(r: Run) { r.Then? && LeftAfter(Last(r.before), r.action, FlagLeft(r.before)) }

  predicate FlagOk(s: State, left: bool) { s.executing <==> Commanded(s) || left }

  /** Steps that leave flag, channel and worker alone. */
  lemma FlagFrame(s: State, s': State, left: bool)
    requires FlagOk(s, left) && s'.executing == s.executing && s'.channel == s.channel && s'.worker == s.worker
    ensures FlagOk(s', left)
  {
  }

  lemma FlagSent(s: State, s': State, m: Command, left: bool)
    requires FlagOk(s, left) && s'.worker == s.worker && s'.channel == s.channel + [m]
    requires s'.executing == (s.executing || m.Execute?)
    ensures FlagOk(s', left)
  {
    assert s'.channel[..|s.channel|] == s.channel && s'.channel[|s.channel|] == m;
    assert forall i :: 0 <= i < |s.channel| ==> s'.channel[i] == s.channel[i];
  }

  lemma FlagSend(s: State, s': State, a: Action, left: bool)
    requires Step(s, s', a) && FlagOk(s, left) && (a.SendStartup? || a.SendExecute? || a.SendReset? || a.Own?)
    ensures FlagOk(s', LeftAfter(s, a, left))
  {
    hide FlagOk;
    if a.Own? {
      FlagSent(s, s', a.command, left);
    } else if a.SendReset? {
      FlagSent(s, s', Reset(a.c), left);
    } else if a.SendStartup? {
      if s.worker.Ended? { FlagFrame(s, s', left); } else { FlagSent(s, s', Startup(a.c), left); }
    } else if a.cloned && !s.worker.Ended? {
      FlagSent(s, s', Execute(a.c), left);
    } else {
      FlagUp(s');
    }
  }

  lemma FlagUp(s: State)
    requires s.executing
    ensures FlagOk(s, true)
  {
  }

  lemma FlagWorker(s: State, s': State, a: Action, left: bool)
    requires Inv(s) && Step(s, s', a) && FlagOk(s, left)
    requires a.RunStartup? || a.BeginExecute? || a.EndExecute? || a.RunReset? || a.RunOwner?
    ensures FlagOk(s', LeftAfter(s, a, left))
  {
    hide SlotOk, ActiveOk, SessionOk;
    if a.EndExecute? {
      assert !Commanded(s');
    } else {
      assert forall i :: 0 < i < |s.channel| ==> s.channel[1..][i - 1] == s.channel[i];
      assert ClientCommand(s.channel[0]) ==> forall i :: 0 < i < |s.channel| ==> !s.channel[i].Execute?;
    }
  }

  lemma {:induction false} RunFlag(r: Run)
    requires IsRun(r)
    ensures FlagOk(Last(r), FlagLeft(r))
  {
    hide Inv, Step, Init, FlagOk, LeftAfter;
    match r
    case Start(s) => FlagStart(s);
    case Then(before, a, s) =>
      RunFlag(before);
      RunKeeps(before);
      if a.RunStartup? || a.BeginExecute? || a.EndExecute? || a.RunReset? || a.RunOwner? {
        FlagWorker(Last(before), s, a, FlagLeft(before));
      } else if a.SendStartup? || a.SendExecute? || a.SendReset? || a.Own? {
        FlagSend(Last(before), s, a, FlagLeft(before));
      } else {
        FlagOther(Last(before), s, a, FlagLeft(before));
      }
  }

  lemma FlagStart(s: State)
    requires Init(s)
    ensures FlagOk(s, false)
  {
  }

  lemma FlagOther(s: State, s': State, a: Action, left: bool)
    requires Step(s, s', a) && FlagOk(s, left)
    requires a.Claim? || a.Serve? || a.Answered? || a.Leave? || a.Withdraw? || a.Release? || a.Match? || a.Look? ||
             a.Deliver? || a.Close?
    ensures FlagOk(s', LeftAfter(s, a, left))
  {
    hide FlagOk;
    FlagFrame(s, s', left);
  }

  /**
   * A cancel request goes on to interrupt the backend if and only if, when it looks, a command of its own client is
   * running or on its way, or the flag was left up.
   */
  lemma CancelArmedIff(r: Run)
    requires IsRun(r) && r.Then? && r.action.Look?
    ensures var s := Last(r.before);
      s.cancelling.Some? && (r.next.armed <==> Commands(s, s.cancelling.value) || FlagLeft(r.before))
  {
    hide IsRun;
    assert IsRun(r.before) && LookStep(Last(r.before), r.next) by { LookOf(r); }
    RunFlag(r.before);
    CancelConcernsHolder(r.before);
    hide FlagLeft;
    var s := Last(r.before);
    if Commanded(s) && !s.worker.Running? {
      var i :| 0 <= i < |s.channel| && s.channel[i].Execute?;
      assert ClientCommand(s.channel[i]) && s.channel[i] == Execute(s.cancelling.value);
    }
  }

  /** The backend is interrupted for a cancel request only if that request has seen the flag up. */
  lemma DeliveredWasArmed(r: Run)
    requires IsRun(r) && r.Then? && r.action.Deliver?
    ensures Last(r.before).armed && Last(r.before).cancelling.Some?
    ensures r.next == Last(r.before).(cancelling := None, armed := false)
  {
    RunKeeps(r.before);
  }

  lemma LookOf(r: Run)
    requires IsRun(r) && r.Then? && r.action.Look?
    ensures IsRun(r.before) && LookStep(Last(r.before), r.next)
  {
  }

  /** Some reset of the run left the session as it was: the broker was closing, or no new session could be opened. */
  predicate SkipsReset(r: Run) {
    r.Then? && (SkipsReset(r.before) || (r.action.RunReset? && (Last(r.before).closing || !r.action.reopened)))
  }

  /** Without a skipped reset nobody but the holder has touched the session, and a new holder finds it fresh. */
  predicate FreshSoFar(s: State) {
    && (forall t :: t in s.touched ==> t in s.stages)
    && (forall c :: c in s.stages && Untouching(s.stages[c]) ==> s.touched == {})
  }

  /** A holder past its startup has touched the session, until its reset. */
  predicate HolderTouched(s: State) {
    forall c :: c in s.stages && !Untouching(s.stages[c]) ==> c in s.touched
  }

  /** What a run says about the session, while the worker is there to run a startup. */
  predicate FreshOk(s: State, skips: bool) {
    && (skips ==> s.closing && s.touched != {})
    && (s.worker.Ended? || (HolderTouched(s) && (skips || FreshSoFar(s))))
  }

  /** Steps of clients, cancel requests and owner never change what was touched. */
  lemma FreshClient(s: State, s': State, a: Action, skips: bool)
    requires Inv(s) && Step(s, s', a) && FreshOk(s, skips)
    requires a.Claim? || a.Serve? || a.Answered? || a.Leave? || a.Withdraw? || a.Release? || a.Match? || a.Look? ||
             a.Deliver? || a.Close?
    ensures FreshOk(s', skips)
  {
    hide ChannelOk, WorkerOk, SessionOk, ActiveOk;
  }

  /** A holder that moves on its own account stays on its side of startup and reset. */
  lemma FreshMove(s: State, s': State, c: Client, stage: Stage, skips: bool)
    requires FreshOk(s, skips) && c in s.stages && s'.stages == s.stages[c := stage]
    requires s'.touched == s.touched && s'.closing == s.closing && s'.worker == s.worker
    requires s.worker.Ended? || (Untouching(stage) <==> Untouching(s.stages[c]))
    ensures FreshOk(s', skips)
  {
  }

  lemma FreshFrame(s: State, s': State, skips: bool)
    requires FreshOk(s, skips) && s'.stages == s.stages
    requires s'.touched == s.touched && s'.closing == s.closing && s'.worker == s.worker
    ensures FreshOk(s', skips)
  {
  }

  lemma FreshSend(s: State, s': State, a: Action, skips: bool)
    requires Step(s, s', a) && FreshOk(s, skips)
    requires (a.SendStartup? || a.SendExecute? || a.SendReset? || a.Own?)
    ensures FreshOk(s', skips)
  {
    hide FreshOk, ClaimStep, ServeStep, AnsweredStep, LeaveStep, WithdrawStep, ReleaseStep, MatchStep, LookStep,
      DeliverStep, RunStartupStep, BeginExecuteStep, EndExecuteStep, RunResetStep, RunOwnerStep;
    if a.Own? {
      FreshFrame(s, s', skips);
    } else {
      FreshMove(s, s', a.c, s'.stages[a.c], skips);
    }
  }

  lemma FreshWorker(s: State, s': State, a: Action, skips: bool)
    requires Inv(s) && Step(s, s', a) && FreshOk(s, skips)
    requires a.RunStartup? || a.BeginExecute? || a.EndExecute? || a.RunOwner?
    ensures FreshOk(s', skips)
  {
    hide ActiveOk, SessionOk;
    if a.RunStartup? || a.BeginExecute? { assert ClientCommand(s.channel[0]); }
  }

  /** A reset is always asked for by someone who has touched the session, so a skipped one leaves it touched. */
  lemma FreshReset(s: State, s': State, c: Client, reopened: bool, skips: bool)
    requires Inv(s) && RunResetStep(s, s', c, reopened) && FreshOk(s, skips)
    ensures FreshOk(s', skips || s.closing || !reopened)
  {
    hide ActiveOk, SessionOk;
    assert ClientCommand(s.channel[0]);
    assert c in s.touched;
  }

  lemma {:induction false} RunFresh(r: Run)
    requires IsRun(r)
    ensures FreshOk(Last(r), SkipsReset(r))
  {
    hide Inv, Step, FreshOk, RunResetStep;
    match r
    case Start(s) => FreshStart(s);
    case Then(before, a, s) =>
      RunFresh(before);
      RunKeeps(before);
      if a.RunReset? {
        StepOfReset(Last(before), s, a);
        FreshReset(Last(before), s, a.c, a.reopened, SkipsReset(before));
      } else if a.RunStartup? || a.BeginExecute? || a.EndExecute? || a.RunOwner? {
        FreshWorker(Last(before), s, a, SkipsReset(before));
      } else if a.SendStartup? || a.SendExecute? || a.SendReset? || a.Own? {
        FreshSend(Last(before), s, a, SkipsReset(before));
      } else {
        FreshClient(Last(before), s, a, SkipsReset(before));
      }
  }

  lemma FreshStart(s: State)
    requires Init(s)
    ensures FreshOk(s, false)
  {
  }

  lemma StepOfReset(s: State, s': State, a: Action)
    requires Step(s, s', a) && a.RunReset?
    ensures RunResetStep(s, s', a.c, a.reopened)
  {
  }

  /**
   * A startup meets a session nobody has touched since it was opened if and only if every reset so far has
   * reopened it; a closing broker that has not yet skipped one still hands over a fresh session.
   */
  lemma StartupIsFreshIff(r: Run, c: Client)
    requires IsRun(r) && Takes(Last(r), Startup(c))
    ensures Last(r).touched == {} <==> !SkipsReset(r)
  {
    RunKeeps(r);
    RunFresh(r);
    var s := Last(r);
    assert ClientCommand(s.channel[0]);
    hide IsRun;
  }

  lemma Next(r: Run, a: Action, s: State) returns (n: Run)
    requires IsRun(r) && Step(Last(r), s, a)
    ensures n == Then(r, a, s) && IsRun(n) && Last(n) == s
  {
    n := Then(r, a, s);
  }

  lemma FirstClient() returns (r: Run)
    ensures IsRun(r)
    ensures Last(r) == State(true, None, None, false, false, false, [], Waiting, map[1 := AwaitStartup(true)], {1})
  {
    hide IsRun;
    var s0 := State(false, None, None, false, false, false, [], Waiting, map[], {});
    var s1 := s0.(occupied := true, stages := map[1 := Claimed]);
    var s2 := s1.(stages := map[1 := AwaitStartup(false)], channel := [Startup(1)]);
    var s3 := s2.(stages := map[1 := AwaitStartup(true)], channel := [], touched := {1});
    r := Fresh();
    r := Next(r, Claim(1), s1);
    r := Next(r, SendStartup(1), s2);
    assert {} + {1} == {1};
    r := Next(r, RunStartup(1), s3);
  }

  lemma Fresh() returns (r: Run)
    ensures IsRun(r) && Last(r) == State(false, None, None, false, false, false, [], Waiting, map[], {})
  {
    r := Start(State(false, None, None, false, false, false, [], Waiting, map[], {}));
  }

  lemma FirstLeaves() returns (r: Run)
    ensures IsRun(r)
    ensures Last(r) ==
      State(true, None, None, false, false, false, [Reset(1)], Waiting, map[1 := AwaitReset(false)], {1})
  {
    hide IsRun;
    r := FirstClient();
    var s4 := Last(r).(stages := map[1 := Leaving]);
    var s5 := s4.(stages := map[1 := Left]);
    var s6 := s5.(stages := map[1 := AwaitReset(false)], channel := [Reset(1)]);
    r := Next(r, Leave(1), s4);
    r := Next(r, Withdraw(1), s5);
    r := Next(r, SendReset(1), s6);
  }

  lemma ResetSkipped() returns (r: Run)
    ensures IsRun(r) && Last(r) == State(false, None, None, false, false, true, [], Waiting, map[], {1})
  {
    hide IsRun;
    r := FirstLeaves();
    var s7 := Last(r).(closing := true);
    var s8 := s7.(stages := map[1 := AwaitReset(true)], channel := []);
    var s9 := s8.(stages := map[], occupied := false);
    assert map[1 := AwaitReset(true)] - {1} == map[];
    r := Next(r, Close, s7);
    r := Next(r, RunReset(1, true), s8);
    r := Next(r, Release(1), s9);
  }

  /**
   * While closing, resets are skipped but the slot is still given away: the next client's startup meets the old
   * session.
   */
  lemma ClosingStartupIsNotFresh() returns (r: Run)
    ensures IsRun(r) && Takes(Last(r), Startup(2)) && Last(r).touched == {1} && SkipsReset(r)
  {
    hide IsRun;
    r := ResetSkipped();
    var s10 := Last(r).(stages := map[2 := Claimed], occupied := true);
    var s11 := s10.(stages := map[2 := AwaitStartup(false)], channel := [Startup(2)]);
    r := Next(r, Claim(2), s10);
    r := Next(r, SendStartup(2), s11);
    StartupIsFreshIff(r, 2);
  }

  /** Closing alone does not spoil it: before the first skipped reset a startup is still fresh. */
  lemma ClosingStartupCanBeFresh() returns (r: Run)
    ensures IsRun(r) && Takes(Last(r), Startup(1)) && Last(r).closing && Last(r).touched == {}
  {
    hide IsRun;
    r := Fresh();
    var s1 := Last(r).(closing := true);
    var s2 := s1.(stages := map[1 := Claimed], occupied := true);
    var s3 := s2.(stages := map[1 := AwaitStartup(false)], channel := [Startup(1)]);
    r := Next(r, Close, s1);
    r := Next(r, Claim(1), s2);
    r := Next(r, SendStartup(1), s3);
  }

  /** Client 1 puts the flag up, has no socket to be answered on, and leaves. */
  lemma FlagGoesUp() returns (r: Run)
    ensures IsRun(r) && FlagLeft(r)
    ensures Last(r) == State(true, None, None, false, true, false, [], Waiting, map[1 := Left], {1})
  {
    hide IsRun;
    r := FirstClient();
    var s4 := Last(r).(stages := map[1 := Serving], active := Some(1));
    var s5 := s4.(stages := map[1 := Leaving], executing := true);
    var s6 := s5.(stages := map[1 := Left], active := None);
    r := Next(r, Serve(1), s4);
    r := Next(r, SendExecute(1, false), s5);
    r := Next(r, Withdraw(1), s6);
    RunFlag(r);
  }

  /** Its session is replaced, but not the flag. */
  lemma FlagStaysUp() returns (r: Run)
    ensures IsRun(r) && Last(r) == State(false, None, None, false, true, false, [], Waiting, map[], {})
  {
    hide IsRun;
    r := FlagGoesUp();
    var s7 := Last(r).(stages := map[1 := AwaitReset(false)], channel := [Reset(1)]);
    r := Next(r, SendReset(1), s7);
    r := ResetAndRelease(r);
  }

  lemma ResetAndRelease(r: Run) returns (n: Run)
    requires IsRun(r)
    requires Last(r) ==
      State(true, None, None, false, true, false, [Reset(1)], Waiting, map[1 := AwaitReset(false)], {1})
    ensures IsRun(n) && Last(n) == State(false, None, None, false, true, false, [], Waiting, map[], {})
  {
    hide IsRun;
    var s8 := Last(r).(stages := map[1 := AwaitReset(true)], channel := [], touched := {});
    var s9 := s8.(stages := map[], occupied := false);
    assert map[1 := AwaitReset(true)] - {1} == map[];
    n := Next(r, RunReset(1, true), s8);
    n := Next(n, Release(1), s9);
  }

  lemma SecondServed() returns (r: Run)
    ensures IsRun(r)
    ensures Last(r) == State(true, Some(2), None, false, true, false, [], Waiting, map[2 := Serving], {2})
  {
    hide IsRun;
    r := FlagStaysUp();
    var s1 := Last(r).(stages := map[2 := Claimed], occupied := true);
    var s2 := s1.(stages := map[2 := AwaitStartup(false)], channel := [Startup(2)]);
    var s3 := s2.(stages := map[2 := AwaitStartup(true)], channel := [], touched := {2});
    var s4 := s3.(stages := map[2 := Serving], active := Some(2));
    assert {} + {2} == {2};
    r := Next(r, Claim(2), s1);
    r := Next(r, SendStartup(2), s2);
    r := Next(r, RunStartup(2), s3);
    r := Next(r, Serve(2), s4);
  }

  /** A cancel request of client 2, which has sent no command, goes on to interrupt the idle backend. */
  lemma StaleFlagArmsCancel() returns (r: Run)
    ensures IsRun(r) && r.Then? && r.action.Look? && r.next.armed && FlagLeft(r.before)
    ensures Last(r).cancelling == Some(2) && !Commanded(Last(r))
  {
    hide IsRun;
    r := SecondServed();
    var s1 := Last(r).(cancelling := Some(2));
    var s2 := s1.(armed := true);
    r := Next(r, Match(2), s1);
    r := Next(r, Look, s2);
    CancelArmedIff(r);
    assert !Commands(s1, 2);
  }
}
