/** The broker's terminals: starting them, queueing their input, moving bytes between the queues and the
    PTYs as the poller reports them ready, and recording exits.

    The operating system's answers (new descriptors and pids, how much a write took, what a read gave)
    are arguments. It is taken to hand out only descriptors that are not open. */
module Broker {
  import opened Frames
  import opened Spans
  import ControlFrames

  const TERMINALS := 128

  datatype Spec = Spec(name: string, command: seq<string>, cwd: Option<string>)

  datatype Terminal = Terminal(pid: int, status: Option<int>, spec: Spec, pending: seq<byte>)

  /** What a master descriptor is registered for. */
  datatype Interest = Input | InputOutput

  datatype Error = NotAbsolute | NameTaken | TerminalLimit | UnknownName | InputFull | NoMaster

  /** A reply; `Crashed` stands for none, because the error ends the broker. */
  datatype Reply = Done | Started(pid: int, status: Option<int>) | Failed(error: Error) | Crashed

  /** The broker's tables, with everything ever accepted for a terminal and ever written to its PTY. */
  datatype Tables = Tables(terminals: map<string, Terminal>, order: seq<string>, masters: map<int, string>,
                           poll: map<int, Interest>, accepted: map<string, seq<byte>>, written: map<string, seq<byte>>)

  // ----- what the tables keep -----

  ghost predicate OneMasterEach(s: Tables) {
    forall f, g | f in s.masters && g in s.masters && s.masters[f] == s.masters[g] :: f == g
  }

  /** `order` lists the terminals once each, in the order they were started. */
  ghost predicate Listed(s: Tables) {
    && |s.order| == |s.terminals|
    && (forall i | 0 <= i < |s.order| :: s.order[i] in s.terminals)
    && forall i, j | 0 <= i < j < |s.order| :: s.order[i] != s.order[j]
  }

  /** Every queue is bounded, and what was accepted for a terminal is what was written to its PTY followed
      by what is still queued. */
  ghost predicate Conserved(s: Tables) {
    && s.accepted.Keys == s.terminals.Keys && s.written.Keys == s.terminals.Keys
    && forall n | n in s.terminals ::
         |s.terminals[n].pending| <= ControlFrames.LIMIT && s.accepted[n] == s.written[n] + s.terminals[n].pending
  }

  /** An open terminal has a registered name, and with queued input it is waiting to be writable. */
  ghost predicate WillDrain(s: Tables) {
    && s.poll.Keys == s.masters.Keys
    && forall f | f in s.masters :: s.masters[f] in s.terminals && (Queue(s, f) != [] ==> s.poll[f] == InputOutput)
  }

  ghost function Queue(s: Tables, f: int): seq<byte>
    requires f in s.masters
  {
    if s.masters[f] in s.terminals then s.terminals[s.masters[f]].pending else []
  }

  ghost predicate Sound(s: Tables) {
    |s.terminals| <= TERMINALS && Listed(s) && OneMasterEach(s) && Conserved(s) && WillDrain(s)
  }

  /** The converse of `WillDrain`: no terminal is polled for writing without something to write. */
  ghost predicate Quiet(s: Tables) {
    forall f | f in s.masters && f in s.poll :: s.poll[f] == InputOutput ==> Queue(s, f) != []
  }

  /** The terminal has not been closed: some master is its. */
  ghost predicate IsOpen(s: Tables, name: string) {
    exists f :: f in s.masters && s.masters[f] == name
  }

  const EMPTY := Tables(map[], [], map[], map[], map[], map[])

  // ----- the operations on the tables -----

  predicate Absolute(spec: Spec) {
    spec.command != [] && "/" <= spec.command[0] && (spec.cwd.Some? ==> "/" <= spec.cwd.value)
  }

  function SpawnReply(s: Tables, spec: Spec, pid: int): Reply {
    if spec.name in s.terminals then
      if s.terminals[spec.name].spec != spec then Failed(NameTaken)
      else Started(s.terminals[spec.name].pid, s.terminals[spec.name].status)
    else if |s.terminals| >= TERMINALS then Failed(TerminalLimit)
    else Started(pid, None)
  }

  /** An empty command is not refused: looking at its first word fails, and nothing catches that. */
  function StartReply(s: Tables, spec: Spec, pid: int): Reply {
    if spec.command == [] then Crashed else if !Absolute(spec) then Failed(NotAbsolute) else SpawnReply(s, spec, pid)
  }

  ghost predicate Spawns(s: Tables, spec: Spec) {
    spec.name !in s.terminals && |s.terminals| < TERMINALS
  }

  ghost function AfterSpawn(s: Tables, spec: Spec, fd: int, pid: int): Tables {
    if !Spawns(s, spec) then s else
      Tables(s.terminals[spec.name := Terminal(pid, None, spec, [])], s.order + [spec.name], s.masters[fd := spec.name],
             s.poll[fd := Input], s.accepted[spec.name := []], s.written[spec.name := []])
  }

  ghost function AfterStart(s: Tables, spec: Spec, fd: int, pid: int): Tables {
    if Absolute(spec) then AfterSpawn(s, spec, fd, pid) else s
  }

  ghost predicate Accepts(s: Tables, name: string, data: seq<byte>) {
    name in s.terminals && |s.terminals[name].pending| + |data| <= ControlFrames.LIMIT
  }

  ghost function InputReply(s: Tables, name: string, data: seq<byte>): Reply {
    if name !in s.terminals then Failed(UnknownName)
    else if !Accepts(s, name, data) then Failed(InputFull)
    else if !IsOpen(s, name) then Failed(NoMaster)
    else Done
  }

  /** The master with the name is registered for output. */
  ghost function Raised(s: Tables, name: string): map<int, Interest> {
    map f | f in s.poll :: if f in s.masters && s.masters[f] == name then InputOutput else s.poll[f]
  }

  /** Accepted input joins the queue, also that of a terminal that is closed by now. */
  ghost function AfterInput(s: Tables, name: string, data: seq<byte>): Tables {
    if !Accepts(s, name, data) then s else
      var item := s.terminals[name];
      s.(terminals := s.terminals[name := item.(pending := item.pending + data)],
         accepted := s.accepted[name := (if name in s.accepted then s.accepted[name] else []) + data],
         poll := Raised(s, name))
  }

  /** Part of the queue of an open terminal is written; an emptied one is no longer polled for output. */
  ghost function AfterWritable(s: Tables, fd: int, count: int): Tables
    requires fd in s.masters && 0 <= count <= |Queue(s, fd)|
  {
    var name, queue := s.masters[fd], Queue(s, fd);
    if name !in s.terminals || queue == [] then s else
      s.(terminals := s.terminals[name := s.terminals[name].(pending := queue[count..])],
         written := s.written[name := (if name in s.written then s.written[name] else []) + queue[..count]],
         poll := if count == |queue| then s.poll[fd := Input] else s.poll)
  }

  ghost function AfterClose(s: Tables, fd: int): Tables {
    s.(masters := s.masters - {fd}, poll := s.poll - {fd})
  }

  /** The first terminal, in the order they were started, with the pid; |order| when there is none. */
  ghost function FirstWithPid(s: Tables, k: int, pid: int): int
    requires 0 <= k <= |s.order|
    decreases |s.order| - k
  {
    if k == |s.order| then k
    else if s.order[k] in s.terminals && s.terminals[s.order[k]].pid == pid then k
    else FirstWithPid(s, k + 1, pid)
  }

  ghost function AfterReap(s: Tables, pid: int, status: int): Tables {
    var k := FirstWithPid(s, 0, pid);
    if !(0 <= k < |s.order|) || s.order[k] !in s.terminals then s else
      s.(terminals := s.terminals[s.order[k] := s.terminals[s.order[k]].(status := Some(status))])
  }

  // ----- every operation keeps the tables sound -----

  lemma SpawnKeeps(s: Tables, spec: Spec, fd: int, pid: int)
    requires Sound(s) && fd !in s.masters
    ensures Sound(AfterSpawn(s, spec, fd, pid))
    ensures Quiet(s) ==> Quiet(AfterSpawn(s, spec, fd, pid))
  {
    if Spawns(s, spec) {
      var t := AfterSpawn(s, spec, fd, pid);
      assert t.terminals.Keys == s.terminals.Keys + {spec.name};
      SpawnKeepsOrder(s, spec, fd, pid);
      SpawnConserves(s, spec, fd, pid);
      forall f | f in t.masters
        ensures t.masters[f] in t.terminals && f in t.poll
        ensures if f == fd then Queue(t, f) == [] && t.poll[f] == Input
                else f in s.masters && Queue(t, f) == Queue(s, f) && t.poll[f] == s.poll[f]
      {
      }
    }
  }

  lemma SpawnConserves(s: Tables, spec: Spec, fd: int, pid: int)
    requires Conserved(s) && Spawns(s, spec)
    ensures Conserved(AfterSpawn(s, spec, fd, pid))
  {
  }

  lemma SpawnKeepsOrder(s: Tables, spec: Spec, fd: int, pid: int)
    requires Listed(s) && OneMasterEach(s) && WillDrain(s) && Spawns(s, spec) && fd !in s.masters
    ensures Listed(AfterSpawn(s, spec, fd, pid)) && OneMasterEach(AfterSpawn(s, spec, fd, pid))
  {
    var t := AfterSpawn(s, spec, fd, pid);
    assert |t.terminals| == |s.terminals| + 1;
    forall i | 0 <= i < |s.order| ensures s.order[i] != spec.name {
      assert s.order[i] in s.terminals;
    }
  }

  lemma InputKeepsTables(s: Tables, name: string, data: seq<byte>)
    requires Sound(s)
    ensures var t := AfterInput(s, name, data);
            t.terminals.Keys == s.terminals.Keys && |t.terminals| == |s.terminals| && Listed(t) && OneMasterEach(t)
                && Conserved(t)
  {
    var t := AfterInput(s, name, data);
    if Accepts(s, name, data) {
      assert t.terminals.Keys == s.terminals.Keys;
      SameSize(t.terminals, s.terminals);
      InputConserves(s, name, data);
    }
  }

  lemma InputConserves(s: Tables, name: string, data: seq<byte>)
    requires Conserved(s) && Accepts(s, name, data)
    ensures Conserved(AfterInput(s, name, data))
  {
    assert s.written[name] + (s.terminals[name].pending + data) == s.written[name] + s.terminals[name].pending + data;
  }

  lemma SameSize<V, W>(a: map<string, V>, b: map<string, W>)
    requires a.Keys == b.Keys
    ensures |a| == |b|
  {
    assert |a| == |a.Keys| && |b| == |b.Keys|;
  }

  lemma InputQueue(s: Tables, name: string, data: seq<byte>, f: int)
    requires Sound(s) && Accepts(s, name, data) && f in s.masters
    ensures var t := AfterInput(s, name, data);
            && f in t.poll && t.masters == s.masters
            && (s.masters[f] == name ==> t.poll[f] == InputOutput && Queue(t, f) == s.terminals[name].pending + data)
            && (s.masters[f] != name ==> t.poll[f] == s.poll[f] && Queue(t, f) == Queue(s, f))
  {
    assert f in s.poll;
  }

  lemma InputKeeps(s: Tables, name: string, data: seq<byte>)
    requires Sound(s)
    ensures Sound(AfterInput(s, name, data))
  {
    InputKeepsTables(s, name, data);
    if Accepts(s, name, data) {
      var t := AfterInput(s, name, data);
      assert t.poll.Keys == t.masters.Keys;
      forall f | f in t.masters
        ensures t.masters[f] in t.terminals && (Queue(t, f) != [] ==> t.poll[f] == InputOutput)
      {
        InputQueue(s, name, data, f);
      }
    }
  }

  /** Polling for output stays tied to queued input unless an open terminal with an empty queue is sent
      empty input; then it is left polled for output with nothing to write. */
  lemma InputKeepsQuiet(s: Tables, name: string, data: seq<byte>)
    requires Sound(s) && Quiet(s) && Accepts(s, name, data) && IsOpen(s, name)
    ensures Quiet(AfterInput(s, name, data)) <==> s.terminals[name].pending + data != []
  {
    var t := AfterInput(s, name, data);
    forall f | f in s.masters { InputQueue(s, name, data, f); }
    var f :| f in s.masters && s.masters[f] == name;
    if s.terminals[name].pending + data == [] {
      assert f in t.masters && f in t.poll && t.poll[f] == InputOutput && Queue(t, f) == [];
    } else {
      forall g | g in t.masters && g in t.poll ensures t.poll[g] == InputOutput ==> Queue(t, g) != [] {
        InputQueue(s, name, data, g);
        assert g in s.masters && g in s.poll;
      }
    }
  }

  /** Input that is refused, or whose terminal is closed, does not touch the polling. */
  lemma OtherInputKeepsQuiet(s: Tables, name: string, data: seq<byte>)
    requires Sound(s) && Quiet(s) && !(Accepts(s, name, data) && IsOpen(s, name))
    ensures Quiet(AfterInput(s, name, data))
  {
    var t := AfterInput(s, name, data);
    forall g | g in t.masters && g in t.poll ensures t.poll[g] == InputOutput ==> Queue(t, g) != [] {
      if Accepts(s, name, data) {
        InputQueue(s, name, data, g);
      }
      assert g in s.masters && g in s.poll;
    }
  }

  lemma WritableQueue(s: Tables, fd: int, count: int, f: int)
    requires Sound(s) && fd in s.masters && 0 <= count <= |Queue(s, fd)| && f in s.masters
    ensures var t := AfterWritable(s, fd, count);
            && f in t.poll && t.masters == s.masters
            && (f != fd ==> t.poll[f] == s.poll[f] && Queue(t, f) == Queue(s, f))
            && (f == fd ==> Queue(t, f) == Queue(s, fd)[count..])
            && (f == fd && Queue(s, fd) != [] ==> t.poll[f] == if count == |Queue(s, fd)| then Input else InputOutput)
            && (f == fd && Queue(s, fd) == [] ==> t.poll[f] == s.poll[f])
  {
    assert f in s.poll;
    if f != fd {
      assert s.masters[f] != s.masters[fd];
    }
  }

  lemma WritableKeepsTables(s: Tables, fd: int, count: int)
    requires Sound(s) && fd in s.masters && 0 <= count <= |Queue(s, fd)|
    ensures var t := AfterWritable(s, fd, count);
            t.terminals.Keys == s.terminals.Keys && |t.terminals| == |s.terminals| && Listed(t) && OneMasterEach(t)
                && Conserved(t)
  {
    var t, name, queue := AfterWritable(s, fd, count), s.masters[fd], Queue(s, fd);
    if queue != [] {
      assert t.terminals.Keys == s.terminals.Keys;
      SameSize(t.terminals, s.terminals);
      assert queue == queue[..count] + queue[count..];
      assert s.written[name] + (queue[..count] + queue[count..]) == s.written[name] + queue[..count] + queue[count..];
    }
  }

  lemma WritableKeeps(s: Tables, fd: int, count: int)
    requires Sound(s) && fd in s.masters && 0 <= count <= |Queue(s, fd)|
    ensures Sound(AfterWritable(s, fd, count))
    ensures Quiet(s) ==> Quiet(AfterWritable(s, fd, count))
  {
    var t := AfterWritable(s, fd, count);
    WritableKeepsTables(s, fd, count);
    assert t.poll.Keys == t.masters.Keys;
    forall f | f in t.masters
      ensures t.masters[f] in t.terminals && (Queue(t, f) != [] ==> t.poll[f] == InputOutput)
      ensures Quiet(s) && f in t.poll && t.poll[f] == InputOutput ==> Queue(t, f) != []
    {
      WritableQueue(s, fd, count, f);
      assert f in s.masters && f in s.poll;
    }
  }

  lemma CloseKeeps(s: Tables, fd: int)
    requires Sound(s)
    ensures Sound(AfterClose(s, fd))
    ensures Quiet(s) ==> Quiet(AfterClose(s, fd))
  {
    var t := AfterClose(s, fd);
    forall f | f in t.masters
      ensures f in s.masters && f in s.poll && Queue(t, f) == Queue(s, f) && t.poll[f] == s.poll[f]
    {
    }
  }

  lemma ReapKeeps(s: Tables, pid: int, status: int)
    requires Sound(s)
    ensures Sound(AfterReap(s, pid, status))
    ensures Quiet(s) ==> Quiet(AfterReap(s, pid, status))
  {
    var t := AfterReap(s, pid, status);
    assert t.terminals.Keys == s.terminals.Keys;
    SameSize(t.terminals, s.terminals);
    assert forall n | n in s.terminals :: t.terminals[n].pending == s.terminals[n].pending;
    assert forall f | f in s.masters :: Queue(t, f) == Queue(s, f);
  }

  // ----- exits -----

  /** The k-th terminal has the pid, and no earlier one has. */
  ghost predicate IsEarliest(s: Tables, k: int, pid: int) {
    && 0 <= k < |s.order| && s.order[k] in s.terminals && s.terminals[s.order[k]].pid == pid
    && forall j | 0 <= j < k && s.order[j] in s.terminals :: s.terminals[s.order[j]].pid != pid
  }

  /** An exit is recorded for the earliest terminal with the pid, and for no other. */
  lemma ReapIs(s: Tables, pid: int, status: int)
    ensures (forall n | n in s.terminals :: s.terminals[n].pid != pid) ==> AfterReap(s, pid, status) == s
    ensures forall k | IsEarliest(s, k, pid) ::
              AfterReap(s, pid, status)
              == s.(terminals := s.terminals[s.order[k] := s.terminals[s.order[k]].(status := Some(status))])
  {
    FirstHasPid(s, 0, pid);
    forall k | IsEarliest(s, k, pid) ensures FirstWithPid(s, 0, pid) == k {
      EarliestIsFirst(s, 0, k, pid);
    }
  }

  lemma {:induction false} EarliestIsFirst(s: Tables, from: int, k: int, pid: int)
    requires IsEarliest(s, k, pid) && 0 <= from <= k
    ensures FirstWithPid(s, from, pid) == k
    decreases k - from
  {
    if from < k {
      EarliestIsFirst(s, from + 1, k, pid);
    }
  }

  lemma {:induction false} FirstHasPid(s: Tables, from: int, pid: int)
    requires 0 <= from <= |s.order|
    ensures var r := FirstWithPid(s, from, pid);
            0 <= r < |s.order| ==> s.order[r] in s.terminals && s.terminals[s.order[r]].pid == pid
    decreases |s.order| - from
  {
    if from < |s.order| {
      FirstHasPid(s, from + 1, pid);
    }
  }

  /** The exit of the k-th terminal's process is recorded for it if and only if no earlier one, which may
      long have exited, has the same pid. */
  lemma {:induction false} ExitIsItsOwn(s: Tables, from: int, k: int)
    requires Listed(s) && 0 <= from <= k < |s.order|
    ensures from <= FirstWithPid(s, from, s.terminals[s.order[k]].pid) <= k
    ensures FirstWithPid(s, from, s.terminals[s.order[k]].pid) == k
       <==> forall j | from <= j < k :: s.terminals[s.order[j]].pid != s.terminals[s.order[k]].pid
    decreases k - from
  {
    if s.terminals[s.order[from]].pid != s.terminals[s.order[k]].pid {
      ExitIsItsOwn(s, from + 1, k);
    }
  }

  // ----- whole runs -----

  /** One thing that happens to the tables, with the system's answers. */
  datatype Step =
    | AutoStart(spec: Spec, fd: int, pid: int)
    | StartTerminal(spec: Spec, fd: int, pid: int)
    | SendInput(name: string, data: seq<byte>)
    | BecomeWritable(fd: int, count: int)
    | CloseMaster(fd: int)
    | ReapChild(pid: int, status: int)

  /** What the system can answer: a descriptor that is not open, and no more bytes than were offered. */
  ghost predicate Possible(s: Tables, e: Step) {
    match e
    case AutoStart(spec, fd, pid) => fd !in s.masters
    case StartTerminal(spec, fd, pid) => fd !in s.masters
    case SendInput(name, data) => true
    case BecomeWritable(fd, count) => fd in s.masters && 0 <= count <= |Queue(s, fd)|
    case CloseMaster(fd) => fd in s.masters
    case ReapChild(pid, status) => true
  }

  ghost function Next(s: Tables, e: Step): Tables
    requires Possible(s, e)
  {
    match e
    case AutoStart(spec, fd, pid) => AfterSpawn(s, spec, fd, pid)
    case StartTerminal(spec, fd, pid) => AfterStart(s, spec, fd, pid)
    case SendInput(name, data) => AfterInput(s, name, data)
    case BecomeWritable(fd, count) => AfterWritable(s, fd, count)
    case CloseMaster(fd) => AfterClose(s, fd)
    case ReapChild(pid, status) => AfterReap(s, pid, status)
  }

  /** The steps take a broker without terminals through the states. */
  ghost predicate Run(states: seq<Tables>, steps: seq<Step>) {
    && |states| == |steps| + 1 && states[0] == EMPTY
    && forall i | 0 <= i < |steps| :: Possible(states[i], steps[i]) && states[i + 1] == Next(states[i], steps[i])
  }

  lemma StepKeeps(s: Tables, e: Step)
    requires Sound(s) && Possible(s, e)
    ensures Sound(Next(s, e))
  {
    match e
    case AutoStart(spec, fd, pid) => SpawnKeeps(s, spec, fd, pid);
    case StartTerminal(spec, fd, pid) => SpawnKeeps(s, spec, fd, pid);
    case SendInput(name, data) => InputKeeps(s, name, data);
    case BecomeWritable(fd, count) => WritableKeeps(s, fd, count);
    case CloseMaster(fd) => CloseKeeps(s, fd);
    case ReapChild(pid, status) => ReapKeeps(s, pid, status);
  }

  /** In every reachable state the tables are sound. */
  lemma {:induction false} RunsAreSound(states: seq<Tables>, steps: seq<Step>, i: int)
    requires Run(states, steps) && 0 <= i < |states|
    ensures Sound(states[i])
    decreases i
  {
    if i > 0 {
      RunsAreSound(states, steps, i - 1);
      assert Possible(states[i - 1], steps[i - 1]) && states[i - 1 + 1] == Next(states[i - 1], steps[i - 1]);
      StepKeeps(states[i - 1], steps[i - 1]);
    }
  }

  /** No input is empty. */
  ghost predicate SomeInput(steps: seq<Step>) {
    forall i | 0 <= i < |steps| && steps[i].SendInput? :: steps[i].data != []
  }

  lemma StepKeepsQuiet(s: Tables, e: Step)
    requires Sound(s) && Quiet(s) && Possible(s, e) && (e.SendInput? ==> e.data != [])
    ensures Quiet(Next(s, e))
  {
    match e
    case AutoStart(spec, fd, pid) => SpawnKeeps(s, spec, fd, pid);
    case StartTerminal(spec, fd, pid) => SpawnKeeps(s, spec, fd, pid);
    case SendInput(name, data) =>
      if Accepts(s, name, data) && IsOpen(s, name) {
        InputKeepsQuiet(s, name, data);
      } else {
        OtherInputKeepsQuiet(s, name, data);
      }
    case BecomeWritable(fd, count) => WritableKeeps(s, fd, count);
    case CloseMaster(fd) => CloseKeeps(s, fd);
    case ReapChild(pid, status) => ReapKeeps(s, pid, status);
  }

  /** In every run without empty input, a terminal is polled for output only while input is queued. */
  lemma {:induction false} RunsAreQuiet(states: seq<Tables>, steps: seq<Step>, i: int)
    requires Run(states, steps) && SomeInput(steps) && 0 <= i < |states|
    ensures Quiet(states[i])
    decreases i
  {
    if i > 0 {
      RunsAreQuiet(states, steps, i - 1);
      RunsAreSound(states, steps, i - 1);
      assert Possible(states[i - 1], steps[i - 1]) && states[i - 1 + 1] == Next(states[i - 1], steps[i - 1]);
      StepKeepsQuiet(states[i - 1], steps[i - 1]);
    }
  }

  // ----- runs that go wrong -----

  const SHELL := Spec("a", ["/bin/sh"], None)
  const OTHER := Spec("b", ["/bin/sh"], None)

  /** Empty input to a fresh terminal leaves it polled for output, with nothing to write. */
  lemma EmptyInputKeepsPolling() returns (states: seq<Tables>, steps: seq<Step>)
    ensures Run(states, steps) && |states| == 3 && !Quiet(states[2])
  {
    var start, input := StartTerminal(SHELL, 5, 70), SendInput("a", []);
    var first := Next(EMPTY, start);
    var second := Next(first, input);
    states, steps := [EMPTY, first, second], [start, input];
    assert Absolute(SHELL) && Spawns(EMPTY, SHELL) && Accepts(first, "a", []);
    assert 5 in second.masters && 5 in second.poll && second.poll[5] == InputOutput && Queue(second, 5) == [];
  }

  /** The second terminal got the pid of the first, which had exited: its own exit is recorded for the
      first, and it stays without a status. */
  lemma ReusedPidIsMistaken() returns (states: seq<Tables>, steps: seq<Step>)
    ensures Run(states, steps) && |states| == 5 && steps[3] == ReapChild(70, 1)
    ensures var t := states[4].terminals;
            && "a" in t && "b" in t && t["b"].pid == 70 && t["b"].status == None && t["a"].status == Some(1)
            && "a" in states[3].terminals && states[3].terminals["a"].status == Some(0)
  {
    var s1, s2 := FirstExits();
    var s3 := Next(s2, StartTerminal(OTHER, 6, 70));
    assert |s2.terminals| == 1 && Absolute(OTHER) && Spawns(s2, OTHER) && s3.order == ["a", "b"];
    var s4 := Next(s3, ReapChild(70, 1));
    assert FirstWithPid(s3, 0, 70) == 0;
    states := [EMPTY, s1, s2, s3, s4];
    steps := [StartTerminal(SHELL, 5, 70), ReapChild(70, 0), StartTerminal(OTHER, 6, 70), ReapChild(70, 1)];
    forall i | 0 <= i < |steps| ensures Possible(states[i], steps[i]) && states[i + 1] == Next(states[i], steps[i]) {
      assert i == 0 || i == 1 || i == 2 || i == 3;
    }
  }

  lemma FirstExits() returns (s1: Tables, s2: Tables)
    ensures s1 == Next(EMPTY, StartTerminal(SHELL, 5, 70)) && s2 == Next(s1, ReapChild(70, 0))
    ensures s2.terminals == map["a" := Terminal(70, Some(0), SHELL, [])] && s2.order == ["a"]
            && s2.masters == map[5 := "a"]
  {
    s1 := Next(EMPTY, StartTerminal(SHELL, 5, 70));
    assert Absolute(SHELL) && Spawns(EMPTY, SHELL) && s1.order == ["a"];
    assert FirstWithPid(s1, 0, 70) == 0;
    s2 := Next(s1, ReapChild(70, 0));
  }

  // ----- the broker -----

  /** What asking for a terminal does: a known name is answered, and refused to another command; a new one
      opens a terminal, unless there are 128. */
  ghost predicate Spawned(s: Tables, t: Tables, spec: Spec, fd: int, pid: int, reply: Reply) {
    if spec.name in s.terminals then
      && t == s
      && reply == if s.terminals[spec.name].spec == spec
                  then Started(s.terminals[spec.name].pid, s.terminals[spec.name].status) else Failed(NameTaken)
    else if |s.terminals| >= 128 then t == s && reply == Failed(TerminalLimit)
    else
      && reply == Started(pid, None) && t.terminals == s.terminals[spec.name := Terminal(pid, None, spec, [])]
      && t.order == s.order + [spec.name] && t.masters == s.masters[fd := spec.name]
      && t.poll == s.poll[fd := Input] && t.accepted == s.accepted[spec.name := []]
      && t.written == s.written[spec.name := []]
  }

  class Session {
    var terminals: map<string, Terminal>
    var order: seq<string>
    var masters: map<int, string>
    var poll: map<int, Interest>
    ghost var accepted: map<string, seq<byte>>
    ghost var written: map<string, seq<byte>>

    ghost function Now(): Tables
      reads this
    {
      Tables(terminals, order, masters, poll, accepted, written)
    }

    constructor ()
      ensures Now() == EMPTY && Sound(Now())
    {
      terminals, order, masters, poll, accepted, written := map[], [], map[], map[], map[], map[];
    }

    /** `start`: like `spawn`, for a command that names its program by an absolute path. */
    method Start(spec: Spec, fd: int, pid: int) returns (reply: Reply)
      requires Sound(Now()) && fd !in masters
      modifies this
      ensures Now() == AfterStart(old(Now()), spec, fd, pid) && reply == StartReply(old(Now()), spec, pid)
      ensures Sound(Now())
      ensures spec.command == [] ==> reply == Crashed && Now() == old(Now())
      ensures spec.command != [] && !("/" <= spec.command[0] && (spec.cwd == None || "/" <= spec.cwd.value)) ==>
                reply == Failed(NotAbsolute) && Now() == old(Now())
      ensures spec.command != [] && "/" <= spec.command[0] && (spec.cwd == None || "/" <= spec.cwd.value) ==>
                Spawned(old(Now()), Now(), spec, fd, pid, reply)
    {
      if spec.command == [] {
        return Crashed;
      }
      if !Absolute(spec) {
        return Failed(NotAbsolute);
      }
      reply := Spawn(spec, fd, pid);
    }

    /** `spawn`, also called for every terminal that starts by itself: the same command under a known name
        is answered again, a new one gets a PTY. fd and pid are what the system hands out if asked. */
    method Spawn(spec: Spec, fd: int, pid: int) returns (reply: Reply)
      requires Sound(Now()) && fd !in masters
      modifies this
      ensures Now() == AfterSpawn(old(Now()), spec, fd, pid) && reply == SpawnReply(old(Now()), spec, pid)
      ensures Sound(Now()) && Spawned(old(Now()), Now(), spec, fd, pid, reply)
    {
      SpawnKeeps(Now(), spec, fd, pid);
      if spec.name in terminals {
        var previous := terminals[spec.name];
        if previous.spec != spec {
          return Failed(NameTaken);
        }
        return Started(previous.pid, previous.status);
      }
      if |terminals| >= TERMINALS {
        return Failed(TerminalLimit);
      }
      Open(spec, fd, pid);
      return Started(pid, None);
    }

    method Open(spec: Spec, fd: int, pid: int)
      requires Spawns(Now(), spec)
      modifies this
      ensures Now() == AfterSpawn(old(Now()), spec, fd, pid)
    {
      terminals := terminals[spec.name := Terminal(pid, None, spec, [])];
      order := order + [spec.name];
      masters := masters[fd := spec.name];
      poll := poll[fd := Input];
      accepted := accepted[spec.name := []];
      written := written[spec.name := []];
    }

    /** `input`: the bytes join the queue unless it would overflow. When the terminal is closed they join
        it too, although the request is then answered with an error. */
    method Enqueue(name: string, data: seq<byte>) returns (reply: Reply)
      requires Sound(Now())
      modifies this
      ensures Now() == AfterInput(old(Now()), name, data) && reply == InputReply(old(Now()), name, data)
      ensures Sound(Now()) && order == old(order) && masters == old(masters) && written == old(written)
      ensures reply == Failed(UnknownName) <==> name !in old(terminals)
      ensures reply == Failed(InputFull) <==>
              name in old(terminals) && |old(terminals)[name].pending| + |data| > 1024 * 1024
      ensures reply == Failed(UnknownName) || reply == Failed(InputFull) ==> Now() == old(Now())
      ensures reply == Done || reply == Failed(NoMaster) || Now() == old(Now())
      ensures reply == Done || reply == Failed(NoMaster) ==>
                && name in old(terminals) && (reply == Done <==> exists f :: f in masters && masters[f] == name)
                && terminals
                    == old(terminals)[name := old(terminals)[name].(pending := old(terminals)[name].pending + data)]
                && accepted == old(accepted)[name := old(accepted)[name] + data] && poll.Keys == old(poll).Keys
                && forall f | f in masters :: poll[f] == if masters[f] == name then InputOutput else old(poll)[f]
    {
      InputKeeps(Now(), name, data);
      if name !in terminals {
        return Failed(UnknownName);
      }
      if |terminals[name].pending| + |data| > ControlFrames.LIMIT {
        return Failed(InputFull);
      }
      reply := Accept(name, data);
    }

    method Accept(name: string, data: seq<byte>) returns (reply: Reply)
      requires Sound(Now()) && Accepts(Now(), name, data)
      modifies this
      ensures Now() == AfterInput(old(Now()), name, data)
      ensures reply == if IsOpen(old(Now()), name) then Done else Failed(NoMaster)
    {
      ghost var before := Now();
      var item := terminals[name];
      terminals := terminals[name := item.(pending := item.pending + data)];
      accepted := accepted[name := (if name in accepted then accepted[name] else []) + data];
      var open := Raise(before, name);
      return if open then Done else Failed(NoMaster);
    }

    /** Registers the terminal's master for output, when it has one. */
    method Raise(ghost before: Tables, name: string) returns (open: bool)
      requires Sound(before) && masters == before.masters && poll == before.poll
      modifies `poll
      ensures poll == Raised(before, name) && open == IsOpen(before, name)
    {
      if f :| f in masters && masters[f] == name {
        RaiseOne(before, name, f);
        poll := poll[f := InputOutput];
        return true;
      }
      RaiseNone(before, name);
      return false;
    }

    /** A master reported writable: part of the queue is written, and once it is empty the master is no
        longer polled for output. A blocked write counts as none. */
    method Writable(fd: int, count: int)
      requires Sound(Now()) && fd in masters && 0 <= count <= |Queue(Now(), fd)|
      modifies this
      ensures Now() == AfterWritable(old(Now()), fd, count) && Sound(Now())
      ensures order == old(order) && masters == old(masters) && accepted == old(accepted)
      ensures old(terminals)[masters[fd]].pending == [] ==> Now() == old(Now())
      ensures var name, queue := masters[fd], old(terminals)[masters[fd]].pending;
              queue != [] ==>
                && terminals == old(terminals)[name := old(terminals)[name].(pending := queue[count..])]
                && written == old(written)[name := old(written)[name] + queue[..count]]
                && poll == if count == |queue| then old(poll)[fd := Input] else old(poll)
    {
      WritableKeeps(Now(), fd, count);
      var name := masters[fd];
      var item := terminals[name];
      if item.pending != [] {
        written := written[name := written[name] + item.pending[..count]];
        terminals := terminals[name := item.(pending := item.pending[count..])];
        if item.pending[count..] == [] {
          poll := poll[fd := Input];
        }
      }
    }

    /** A read gave nothing: the PTY is closed. The terminal keeps its name and its queue. */
    method Close(fd: int)
      requires Sound(Now()) && fd in masters
      modifies this
      ensures Now() == AfterClose(old(Now()), fd) && Sound(Now())
      ensures fd !in masters && fd !in poll
      ensures masters.Keys == old(masters).Keys - {fd} && poll.Keys == old(poll).Keys - {fd}
      ensures forall f | f in masters :: masters[f] == old(masters)[f] && poll[f] == old(poll)[f]
      ensures terminals == old(terminals) && order == old(order) && accepted == old(accepted) && written == old(written)
    {
      CloseKeeps(Now(), fd);
      poll := poll - {fd};
      masters := masters - {fd};
    }

    /** One child was reaped: the first terminal with its pid gets the status. */
    method Reap(pid: int, status: int)
      requires Sound(Now())
      modifies this
      ensures Now() == AfterReap(old(Now()), pid, status) && Sound(Now())
      ensures order == old(order) && masters == old(masters) && poll == old(poll)
      ensures accepted == old(accepted) && written == old(written)
      ensures (forall n | n in old(terminals) :: old(terminals)[n].pid != pid) ==> terminals == old(terminals)
      ensures forall k | IsEarliest(old(Now()), k, pid) ::
                terminals == old(terminals)[order[k] := old(terminals)[order[k]].(status := Some(status))]
    {
      ReapKeeps(Now(), pid, status);
      ReapIs(Now(), pid, status);
      var k := 0;
      while k < |order|
        invariant 0 <= k <= |order| && Now() == old(Now())
        invariant FirstWithPid(Now(), 0, pid) == FirstWithPid(Now(), k, pid)
      {
        if terminals[order[k]].pid == pid {
          var item := terminals[order[k]];
          terminals := terminals[order[k] := item.(status := Some(status))];
          return;
        }
        k := k + 1;
      }
    }
  }

  lemma RaiseOne(s: Tables, name: string, f: int)
    requires Sound(s) && f in s.masters && s.masters[f] == name
    ensures Raised(s, name) == s.poll[f := InputOutput] && IsOpen(s, name)
  {
    var raised, expected := Raised(s, name), s.poll[f := InputOutput];
    assert f in s.poll && raised.Keys == expected.Keys;
    forall g | g in raised ensures raised[g] == expected[g] {
      assert g in s.masters;
      assert g != f ==> s.masters[g] != s.masters[f];
    }
  }

  lemma RaiseNone(s: Tables, name: string)
    requires Sound(s) && forall f | f in s.masters :: s.masters[f] != name
    ensures Raised(s, name) == s.poll && !IsOpen(s, name)
  {
    var raised := Raised(s, name);
    assert raised.Keys == s.poll.Keys;
    forall g | g in raised ensures raised[g] == s.poll[g] {
      assert g in s.masters;
    }
  }
}
