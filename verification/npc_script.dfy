/** The NPC dialogue engine (`Scripts/NpcScript.cs`).

    The script body runs on its own task and talks to its driver through a
    channel of capacity one (the slot) and a one-shot "suspended" signal
    that `Resume` replaces before every push. Here the body is a state
    machine `Script` that names the prompt it waits at, and the engine is a
    step function: `Resume` installs a fresh signal, pushes the action into
    the slot, lets the body consume it and run to its next prompt, and
    reports what the signal then says.
 */
module NpcScript {
  import opened Wrappers
  import opened Bytes

  datatype NpcAction =
    | StartAction
    | NextPrevAction(next: bool)
    | SelectAction(index: i32)
    | TextAction(text: string)
    | YesNoAction(yes: bool)
    | EndAction

  /** The prompt points of the script context. */
  datatype Prompt =
    | SayNext(text: string)
    | SayPrev(text: string)
    | SayNextPrev(text: string)
    | SayYesNo(text: string)
    | SayEnd(text: string)
    | SaySelect(text: string, options: seq<string>)

  /** Whether a prompt lets the action through; every other action makes the
      prompt throw. */
  predicate Accepts(p: Prompt, a: NpcAction)
  {
    match p
    case SayNext(_) => a == NextPrevAction(true)
    case SayPrev(_) => a == NextPrevAction(false)
    case SayNextPrev(_) => a.NextPrevAction?
    case SayYesNo(_) => a.YesNoAction?
    case SayEnd(_) => a.EndAction?
    case SaySelect(_, options) => a.SelectAction? && 0 <= a.index < |options|
  }

  /** What the prompts have in common: `Start` and `Text` are never accepted
      at a prompt; `SayNext` accepts only "next", `SayPrev` only "previous"
      and `SayEnd` only the end action; `SayYesNo` accepts either answer;
      `SayNextPrev` accepts exactly what either of the first two
      does; `SaySelect` accepts exactly the in-range indices. */
  lemma AcceptanceRules(t: string, options: seq<string>, p: Prompt, a: NpcAction, b: NpcAction)
    ensures (a.StartAction? || a.TextAction?) ==> !Accepts(p, a)
    ensures (p.SayNext? || p.SayPrev? || p.SayEnd?) && Accepts(p, a) && Accepts(p, b) ==> a == b
    ensures Accepts(SayNextPrev(t), a) <==> Accepts(SayNext(t), a) || Accepts(SayPrev(t), a)
    ensures Accepts(SaySelect(t, options), a) <==> a.SelectAction? && 0 <= a.index < |options|
    ensures Accepts(SayNext(t), NextPrevAction(true)) && Accepts(SayPrev(t), NextPrevAction(false))
    ensures Accepts(SayEnd(t), EndAction)
    ensures Accepts(SayYesNo(t), a) <==> a.YesNoAction?
  {
  }

  /** A script body: its state at launch, the prompt each state waits at
      (`None` once the body has returned), and the state the body reaches
      from a prompt once the prompt accepted an action. */
  datatype Script<!S> = Script(init: S, ask: S -> Option<Prompt>, resume: (S, NpcAction) -> S)

  /** Where the body is: waiting for the start action (`WaitForStart`, which
      does not signal), blocked at a prompt, returned, or failed. */
  datatype Phase<S> = AwaitingStart | Suspended(state: S, prompt: Prompt) | Completed | Faulted(error: Error)

  /** The one-shot suspend signal of the current `Resume`. */
  datatype Signal = Unset | Signalled | Failed(error: Error)

  datatype Handle<S> = Handle(phase: Phase<S>, slot: Option<NpcAction>, signal: Signal)

  /** What a `Resume` call observes: it returns, it throws, or it never
      completes because nobody will signal. */
  datatype ResumeResult = Returned | Threw(error: Error) | Pending

  datatype Resumed<S> = Resumed(handle: Handle<S>, result: ResumeResult)

  /** `Launch`: the body of `script` waits for its start action, and the
      slot is empty. */
  function Launch<S>(script: Script<S>): (h: Handle<S>)
    ensures Valid(script, h)
    ensures h.phase.AwaitingStart? && h.slot.None?
  {
    Handle(AwaitingStart, None, Unset)
  }

  /** A handle is consistent with its script: a suspended body waits at the
      prompt its state names, and the slot holds an action only once the
      body is no longer reading it. */
  predicate Valid<S>(script: Script<S>, h: Handle<S>)
  {
    && (h.phase.Suspended? ==> script.ask(h.phase.state) == Some(h.phase.prompt))
    && (h.slot.Some? ==> h.phase.Completed? || h.phase.Faulted?)
  }

  /** The body runs from state `s` to its next prompt, where it signals
      before reading, or to its end, where `RunScript` calls `Complete`,
      which signals as well. */
  function Proceed<S>(script: Script<S>, s: S): (h: Handle<S>)
    ensures Valid(script, h) && h.slot.None? && h.signal == Signalled
    ensures h.phase.Completed? <==> script.ask(s).None?
    ensures h.phase.Suspended? ==> h.phase.state == s
  {
    match script.ask(s)
    case None => Handle(Completed, None, Signalled)
    case Some(p) => Handle(Suspended(s, p), None, Signalled)
  }

  /** A throwing prompt: `RunScript` cancels and faults the signal. */
  function Fault<S>(): Handle<S>
  {
    Handle(Faulted(InvalidAction), None, Failed(InvalidAction))
  }

  /** The body side: a body that is reading takes the action out of the slot
      and validates it; a body that has ended leaves it there. */
  function Consume<S>(script: Script<S>, h: Handle<S>): (h': Handle<S>)
    requires h.slot.Some?
    ensures (h.phase.Completed? || h.phase.Faulted?) <==> h' == h
  {
    var a := h.slot.value;
    match h.phase
    case AwaitingStart =>
      if a.StartAction? then Proceed(script, script.init) else Fault()
    case Suspended(s, p) =>
      if Accepts(p, a) then Proceed(script, script.resume(s, a)) else Fault()
    case Completed => h
    case Faulted(_) => h
  }

  /** What awaiting the signal gives. */
  function Observe(signal: Signal): ResumeResult
  {
    match signal
    case Unset => Pending
    case Signalled => Returned
    case Failed(e) => Threw(e)
  }

  /** `Resume`: a fresh signal, then `AddAction` (which throws when the slot
      is still full), then whatever the signal says once the body has run. */
  function Resume<S>(script: Script<S>, h: Handle<S>, a: NpcAction): (r: Resumed<S>)
    ensures h.slot.Some? ==> r.result == Threw(SlotFull) && r.handle.phase == h.phase && r.handle.slot == h.slot
    ensures h.slot.None? && (h.phase.Completed? || h.phase.Faulted?) ==>
              r.result == Pending && r.handle.phase == h.phase && r.handle.slot == Some(a)
    ensures h.slot.None? && h.phase.AwaitingStart? ==>
              && (r.result == Returned <==> a.StartAction?)
              && (r.result == Returned ==> r.handle == Proceed(script, script.init))
              && (r.result != Returned ==> r.result == Threw(InvalidAction) && r.handle.phase == Faulted(InvalidAction))
    ensures h.slot.None? && h.phase.Suspended? ==>
              && (r.result == Returned <==> Accepts(h.phase.prompt, a))
              && (r.result == Returned ==> r.handle == Proceed(script, script.resume(h.phase.state, a)))
              && (r.result != Returned ==> r.result == Threw(InvalidAction) && r.handle.phase == Faulted(InvalidAction))
  {
    var renewed := h.(signal := Unset);
    if renewed.slot.Some? then
      Resumed(renewed, Threw(SlotFull))
    else
      var after := Consume(script, renewed.(slot := Some(a)));
      Resumed(after, Observe(after.signal))
  }

  /** `Resume` keeps a handle consistent, so the slot is full (and `Resume`
      throws `SlotFull`) only after the body has ended and a previous
      `Resume` is still pending. */
  lemma ResumeValid<S>(script: Script<S>, h: Handle<S>, a: NpcAction)
    requires Valid(script, h)
    ensures Valid(script, Resume(script, h, a).handle)
    ensures Resume(script, h, a).result == Threw(SlotFull) ==>
              (h.phase.Completed? || h.phase.Faulted?) && h.slot.Some?
  {
  }

  /** A body that has ended swallows the next action and never answers; the
      action after that finds the slot full. */
  lemma AfterTheEnd<S>(script: Script<S>, h: Handle<S>, a: NpcAction, b: NpcAction)
    requires h.phase.Completed? && h.slot.None?
    ensures var r1 := Resume(script, h, a);
      r1.result == Pending && Resume(script, r1.handle, b).result == Threw(SlotFull)
  {
  }

  datatype Driven<S> = Driven(handle: Handle<S>, results: seq<ResumeResult>)

  /** A driver that awaits every `Resume` before issuing the next one. */
  function Drive<S>(script: Script<S>, h: Handle<S>, actions: seq<NpcAction>): (d: Driven<S>)
    ensures |d.results| == |actions|
    decreases |actions|
  {
    if |actions| == 0 then Driven(h, [])
    else
      var r := Resume(script, h, actions[0]);
      var rest := Drive(script, r.handle, actions[1..]);
      Driven(rest.handle, [r.result] + rest.results)
  }

  /** The body on its own: feed the actions to it one by one, each at the
      prompt the body waits at, which must accept it. */
  function Feed<S>(script: Script<S>, s: S, actions: seq<NpcAction>): Option<S>
    decreases |actions|
  {
    if |actions| == 0 then Some(s)
    else match script.ask(s)
      case None => None
      case Some(p) =>
        if Accepts(p, actions[0]) then Feed(script, script.resume(s, actions[0]), actions[1..]) else None
  }

  predicate AllReturned(results: seq<ResumeResult>)
  {
    forall i :: 0 <= i < |results| ==> results[i] == Returned
  }

  /** One action fed to a body waiting at a prompt that accepts it. */
  lemma FeedStep<S>(script: Script<S>, s: S, actions: seq<NpcAction>)
    requires |actions| > 0 && script.ask(s).Some? && Accepts(script.ask(s).value, actions[0])
    ensures Feed(script, s, actions) == Feed(script, script.resume(s, actions[0]), actions[1..])
  {
  }

  /** Feeding two runs of actions is feeding the first, then the second from
      where the body got to. */
  lemma {:induction false} FeedAppend<S>(script: Script<S>, s: S, xs: seq<NpcAction>, ys: seq<NpcAction>)
    ensures Feed(script, s, xs + ys) ==
      match Feed(script, s, xs)
      case None => None
      case Some(t) => Feed(script, t, ys)
    decreases |xs|
  {
    if |xs| > 0 {
      assert (xs + ys)[0] == xs[0] && (xs + ys)[1..] == xs[1..] + ys;
      match script.ask(s)
      case None =>
      case Some(p) =>
        if Accepts(p, xs[0]) {
          FeedAppend(script, script.resume(s, xs[0]), xs[1..], ys);
        }
    } else {
      assert xs + ys == ys;
    }
  }

  /** Each action reaches the body exactly once and in order: a driver
      starting at a suspended body sees every `Resume` return exactly when
      feeding the same actions to the body succeeds, and then the handle is
      where the body got to. */
  lemma {:induction false} DeliveredInOrder<S>(script: Script<S>, s: S, actions: seq<NpcAction>)
    requires script.ask(s).Some?
    ensures var d := Drive(script, Proceed(script, s), actions);
      AllReturned(d.results) <==> Feed(script, s, actions).Some?
    ensures Feed(script, s, actions).Some? ==>
      Drive(script, Proceed(script, s), actions).handle == Proceed(script, Feed(script, s, actions).value)
    decreases |actions|
  {
    if |actions| > 0 {
      var h := Proceed(script, s);
      var a := actions[0];
      var r := Resume(script, h, a);
      var d := Drive(script, h, actions);
      var rest := Drive(script, r.handle, actions[1..]);
      assert d.results == [r.result] + rest.results;
      if Accepts(h.phase.prompt, a) {
        var s' := script.resume(s, a);
        if script.ask(s').Some? {
          DeliveredInOrder(script, s', actions[1..]);
          if AllReturned(rest.results) {
            assert AllReturned(d.results) by {
              forall i | 0 <= i < |d.results| ensures d.results[i] == Returned {
                if i > 0 { assert d.results[i] == rest.results[i - 1]; }
              }
            }
          } else {
            var i :| 0 <= i < |rest.results| && rest.results[i] != Returned;
            assert d.results[i + 1] == rest.results[i];
          }
        } else if |actions| > 1 {
          assert rest.results[0] == Pending;
          assert d.results[1] == Pending;
        }
      } else {
        assert d.results[0] != Returned;
      }
    }
  }

  /** A whole run from a launched handle: `StartAction` followed by
      `actions`. Every `Resume` returns exactly when the body, started at its
      initial state, accepts the actions in order, and the handle then ends
      where the body got to. */
  lemma StartThenDeliver<S>(script: Script<S>, actions: seq<NpcAction>)
    requires script.ask(script.init).Some?
    ensures var d := Drive(script, Launch(script), [StartAction] + actions);
      AllReturned(d.results) <==> Feed(script, script.init, actions).Some?
    ensures Feed(script, script.init, actions).Some? ==>
      Drive(script, Launch(script), [StartAction] + actions).handle == Proceed(script, Feed(script, script.init, actions).value)
  {
    var all := [StartAction] + actions;
    assert all[0] == StartAction && all[1..] == actions;
    var first := Resume(script, Launch(script), StartAction);
    var rest := Drive(script, first.handle, actions);
    var d := Drive(script, Launch(script), all);
    assert d == Driven(rest.handle, [Returned] + rest.results);
    DeliveredInOrder(script, script.init, actions);
    if AllReturned(rest.results) {
      forall i | 0 <= i < |d.results| ensures d.results[i] == Returned {
        if i > 0 { assert d.results[i] == rest.results[i - 1]; }
      }
    } else {
      var i :| 0 <= i < |rest.results| && rest.results[i] != Returned;
      assert d.results[i + 1] == rest.results[i];
    }
  }
}
