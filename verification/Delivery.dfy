/** What the broker's terminals receive in a run: the accepted input, in order and once, until they are closed. */
module Delivery {
  import opened Frames
  import opened Broker

  /** The queue of a terminal; a name that is not in use has none. */
  ghost function Pending(s: Tables, name: string): seq<byte> {
    if name in s.terminals then s.terminals[name].pending else []
  }

  /** The input that the step sends to the name, if it is a terminal's and there is room. */
  ghost function Sends(s: Tables, e: Step, name: string): seq<byte> {
    if e.SendInput? && e.name == name && name in s.terminals && |Pending(s, name)| + |e.data| <= 1024 * 1024
    then e.data else []
  }

  /** What the step writes to the terminal, from the head of its queue. */
  ghost function Writes(s: Tables, e: Step, name: string): seq<byte> {
    if e.BecomeWritable? && e.fd in s.masters && s.masters[e.fd] == name && 0 <= e.count <= |Pending(s, name)|
    then Pending(s, name)[..e.count] else []
  }

  ghost function Sent(states: seq<Tables>, steps: seq<Step>, name: string, i: int): seq<byte>
    requires 0 <= i <= |steps| && |states| == |steps| + 1
    decreases i
  {
    if i == 0 then [] else Sent(states, steps, name, i - 1) + Sends(states[i - 1], steps[i - 1], name)
  }

  ghost function Written(states: seq<Tables>, steps: seq<Step>, name: string, i: int): seq<byte>
    requires 0 <= i <= |steps| && |states| == |steps| + 1
    decreases i
  {
    if i == 0 then [] else Written(states, steps, name, i - 1) + Writes(states[i - 1], steps[i - 1], name)
  }

  lemma RunStep(states: seq<Tables>, steps: seq<Step>, i: int)
    requires Run(states, steps) && 0 <= i < |steps|
    ensures Sound(states[i]) && Possible(states[i], steps[i]) && states[i + 1] == Next(states[i], steps[i])
  {
    RunsAreSound(states, steps, i);
  }

  lemma StepBalances(s: Tables, e: Step, name: string)
    requires Sound(s) && Possible(s, e)
    ensures Writes(s, e, name) + Pending(Next(s, e), name) == Pending(s, name) + Sends(s, e, name)
  {
    match e
    case AutoStart(_, _, _) =>
    case StartTerminal(_, _, _) =>
    case SendInput(to, data) => InputBalances(s, to, data, name);
    case BecomeWritable(fd, count) => WriteBalances(s, fd, count, name);
    case CloseMaster(_) =>
    case ReapChild(_, _) =>
  }

  lemma InputBalances(s: Tables, to: string, data: seq<byte>, name: string)
    requires Sound(s)
    ensures Pending(AfterInput(s, to, data), name) == Pending(s, name) + Sends(s, SendInput(to, data), name)
  {
  }

  lemma WriteBalances(s: Tables, fd: int, count: int, name: string)
    requires Sound(s) && Possible(s, BecomeWritable(fd, count))
    ensures Writes(s, BecomeWritable(fd, count), name) + Pending(AfterWritable(s, fd, count), name) == Pending(s, name)
  {
    var queue := Pending(s, s.masters[fd]);
    assert queue == Queue(s, fd) && queue == queue[..count] + queue[count..];
  }

  lemma Rearrange(before: seq<byte>, sent: seq<byte>, queue: seq<byte>, writes: seq<byte>, queue': seq<byte>,
                  sends: seq<byte>)
    requires before + queue == sent && writes + queue' == queue + sends
    ensures (before + writes) + queue' == sent + sends
  {
    assert (before + writes) + queue' == before + (writes + queue');
    assert before + (queue + sends) == (before + queue) + sends;
  }

  /** In every run, the input that was accepted for a terminal arrives in order and once: what has been written
      to it, followed by what is queued, is exactly what was sent. */
  lemma {:induction false} InputArrives(states: seq<Tables>, steps: seq<Step>, name: string, i: int)
    requires Run(states, steps) && 0 <= i <= |steps|
    ensures Written(states, steps, name, i) + Pending(states[i], name) == Sent(states, steps, name, i)
    decreases i
  {
    if i > 0 {
      var s, e := states[i - 1], steps[i - 1];
      RunStep(states, steps, i - 1);
      InputArrives(states, steps, name, i - 1);
      StepBalances(s, e, name);
      Rearrange(Written(states, steps, name, i - 1), Sent(states, steps, name, i - 1), Pending(s, name),
                Writes(s, e, name), Pending(states[i], name), Sends(s, e, name));
    }
  }

  // ----- after the end -----

  /** The name is a terminal's, and no master is registered for it. */
  ghost predicate Closed(s: Tables, name: string) {
    name in s.terminals && forall f | f in s.masters :: s.masters[f] != name
  }

  lemma StaysClosed(s: Tables, e: Step, name: string)
    requires Sound(s) && Possible(s, e) && Closed(s, name)
    ensures Closed(Next(s, e), name) && Writes(s, e, name) == []
  {
  }

  lemma CloseCloses(s: Tables, fd: int)
    requires Sound(s) && fd in s.masters
    ensures Closed(Next(s, CloseMaster(fd)), s.masters[fd])
  {
  }

  lemma {:induction false} ClosedWhile(states: seq<Tables>, steps: seq<Step>, name: string, i: int, j: int)
    requires Run(states, steps) && 0 <= i <= j <= |steps| && Closed(states[i], name)
    ensures Closed(states[j], name) && Written(states, steps, name, j) == Written(states, steps, name, i)
    decreases j
  {
    if i < j {
      ClosedWhile(states, steps, name, i, j - 1);
      ClosedStep(states, steps, name, j - 1);
    }
  }

  lemma ClosedStep(states: seq<Tables>, steps: seq<Step>, name: string, j: int)
    requires Run(states, steps) && 0 <= j < |steps| && Closed(states[j], name)
    ensures Closed(states[j + 1], name) && Written(states, steps, name, j + 1) == Written(states, steps, name, j)
  {
    RunStep(states, steps, j);
    StaysClosed(states[j], steps[j], name);
    NothingWritten(states, steps, name, j);
  }

  lemma NothingWritten(states: seq<Tables>, steps: seq<Step>, name: string, j: int)
    requires 0 <= j < |steps| && |states| == |steps| + 1 && Writes(states[j], steps[j], name) == []
    ensures Written(states, steps, name, j + 1) == Written(states, steps, name, j)
  {
  }

  /** The input of a closed terminal is answered with an error, for the missing master when there is room. */
  ghost predicate RefusesInput(s: Tables, name: string) {
    forall data :: InputReply(s, name, data) ==
                     if |Pending(s, name)| + |data| > 1024 * 1024 then Failed(InputFull) else Failed(NoMaster)
  }

  lemma ClosedRefuses(s: Tables, name: string)
    requires Closed(s, name)
    ensures RefusesInput(s, name)
  {
  }

  /** A terminal whose read gave nothing stays closed for the rest of the run: nothing more is written to it,
      and its input is answered with an error. */
  lemma ClosedForGood(states: seq<Tables>, steps: seq<Step>, i: int, j: int)
    requires Run(states, steps) && 0 <= i < j <= |steps| && steps[i].CloseMaster?
    ensures steps[i].fd in states[i].masters
    ensures var name := states[i].masters[steps[i].fd];
            && Closed(states[j], name) && RefusesInput(states[j], name)
            && Written(states, steps, name, j) == Written(states, steps, name, i)
  {
    RunStep(states, steps, i);
    var name := states[i].masters[steps[i].fd];
    CloseCloses(states[i], steps[i].fd);
    ClosedWhile(states, steps, name, i + 1, j);
    ClosedRefuses(states[j], name);
    assert Writes(states[i], steps[i], name) == [];
  }
}
