/** The example dialogue `NpcScript1000` (`Scripts/NpcScript.cs`), as a
    script body for the engine of module `NpcScript`. */
module NpcScript1000 {
  import opened Wrappers
  import opened Bytes
  import opened NpcScript

  /** The number of messages `SayMultiple` walks through. */
  const Count: nat := 10

  type MessageIndex = i: nat | i < Count

  /** Where the body of `Run` is waiting. */
  datatype Pc =
    | Hello
    | HowAreYou
    | GoodQuestion
    | Good
    | Bad
    | Multiple(i: MessageIndex)
    | SelectNumber
    | Selected(index: i32)
    | Goodbye
    | Finished

  /** `int.ToString()` for a non-negative value. */
  function NatToString(n: nat): (s: string)
    ensures |s| >= 1
    ensures forall k :: 0 <= k < |s| ==> '0' <= s[k] <= '9'
    decreases n
  {
    var d := ['0' + (n % 10) as char];
    if n < 10 then d else NatToString(n / 10) + d
  }

  function IntToString(n: int): string
  {
    if n < 0 then "-" + NatToString(-n) else NatToString(n)
  }

  /** The messages "0" to "9". */
  function Digits(): (ds: seq<string>)
    ensures |ds| == Count
    ensures forall i :: 0 <= i < Count ==> ds[i] == ['0' + i as char]
  {
    seq(Count, i requires 0 <= i < Count => NatToString(i))
  }

  /** The loop test of `SayMultiple`: index `j` leaves the walk exactly when
      it reaches the number of messages. */
  function Enter(j: nat): (pc: Pc)
    requires j <= Count
    ensures pc == SelectNumber <==> j == Count
    ensures j < Count ==> pc == Multiple(j)
  {
    if j == Count then SelectNumber else Multiple(j)
  }

  /** The prompt of each point of `Run`; `SayMultiple` uses `SayNext` for the
      first message and `SayNextPrev` for the others. */
  function Ask(pc: Pc): (p: Option<Prompt>)
    ensures p.None? <==> pc == Finished
    ensures p.Some? && p.value.SayEnd? <==> pc == Goodbye
  {
    match pc
    case Hello => Some(SayNext("Hello"))
    case HowAreYou => Some(SayNext("How are you?"))
    case GoodQuestion => Some(SayYesNo("Good?"))
    case Good => Some(SayNext("Good"))
    case Bad => Some(SayNext("Bad"))
    case Multiple(i) => if i == 0 then Some(SayNext(Digits()[0])) else Some(SayNextPrev(Digits()[i]))
    case SelectNumber => Some(SaySelect("Select a number", Digits()))
    case Selected(ix) => Some(SayNext("You selected " + IntToString(ix)))
    case Goodbye => Some(SayEnd("Goodbye"))
    case Finished => None
  }

  /** Where `Run` goes once the prompt at `pc` accepted `a`. */
  function Advance(pc: Pc, a: NpcAction): (next: Pc)
    ensures next == Finished <==> pc == Goodbye || pc == Finished
    ensures pc.Multiple? ==> next.Multiple? || next == SelectNumber
  {
    match pc
    case Hello => HowAreYou
    case HowAreYou => GoodQuestion
    case GoodQuestion => if a == YesNoAction(true) then Good else Bad
    case Good => Enter(0)
    case Bad => Enter(0)
    case Multiple(i) => if i > 0 && a == NextPrevAction(false) then Multiple(i - 1) else Enter(i + 1)
    case SelectNumber => Selected(if a.SelectAction? then a.index else 0)
    case Selected(_) => Goodbye
    case Goodbye => Finished
    case Finished => Finished
  }

  function Script1000(): (sc: Script<Pc>)
    ensures sc.init == Hello && sc.ask(sc.init) == Some(SayNext("Hello"))
    ensures forall pc :: sc.ask(pc).None? <==> pc == Finished
  {
    Script(Hello, Ask, Advance)
  }

  /** One step of `SayMultiple` at index `i`: the first message only goes
      forward, the others move the index by one in the chosen direction, so
      the index stays in 0..n and the walk ends exactly at n. */
  lemma SayMultipleStep(i: MessageIndex, a: NpcAction)
    requires Accepts(Ask(Multiple(i)).value, a)
    ensures i == 0 ==> a == NextPrevAction(true)
    ensures var next := Advance(Multiple(i), a);
      && (a == NextPrevAction(true) ==> next == Enter(i + 1))
      && (a == NextPrevAction(false) ==> i > 0 && next == Multiple(i - 1))
      && (next == SelectNumber <==> i == Count - 1 && a.next)
  {
  }

  /** The selection accepts exactly the indices 0 to 9 and echoes the chosen
      one back. */
  lemma SelectEchoes(a: NpcAction)
    ensures Accepts(Ask(SelectNumber).value, a) <==> a.SelectAction? && 0 <= a.index < Count
    ensures Accepts(Ask(SelectNumber).value, a) ==>
              Ask(Advance(SelectNumber, a)) == Some(SayNext("You selected " + NatToString(a.index)))
  {
  }

  /** The actions of the handle test: start, two "next", "yes", then eleven
      "next" (the reply to "Good" and the ten messages), the fifth option,
      one more "next" and the end. */
  function TestActions(): (actions: seq<NpcAction>)
    ensures |actions| == 18
  {
    [StartAction, NextPrevAction(true), NextPrevAction(true), YesNoAction(true)]
    + seq(11, _ => NextPrevAction(true))
    + [SelectAction(5), NextPrevAction(true), EndAction]
  }

  /** The walk through the ten messages going forward only. */
  lemma {:induction false} WalkForward(i: nat)
    requires i <= Count
    ensures Feed(Script1000(), Enter(i), seq(Count - i, _ => NextPrevAction(true))) == Some(SelectNumber)
    decreases Count - i
  {
    if i < Count {
      var rest := seq(Count - i, _ => NextPrevAction(true));
      assert rest[1..] == seq(Count - (i + 1), _ => NextPrevAction(true));
      FeedStep(Script1000(), Enter(i), rest);
      WalkForward(i + 1);
    }
  }

  /** "Next", "next", "yes", "next" from the first prompt lead into the walk. */
  lemma HeadFeed()
    ensures Feed(Script1000(), Hello, [NextPrevAction(true), NextPrevAction(true), YesNoAction(true), NextPrevAction(true)])
            == Some(Multiple(0))
  {
    var sc := Script1000();
    var xs := [NextPrevAction(true), NextPrevAction(true), YesNoAction(true), NextPrevAction(true)];
    FeedStep(sc, Hello, xs);
    FeedStep(sc, HowAreYou, xs[1..]);
    FeedStep(sc, GoodQuestion, xs[2..]);
    FeedStep(sc, Good, xs[3..]);
  }

  /** The fifth option, "next" and the end after the walk end the script. */
  lemma TailFeed()
    ensures Feed(Script1000(), SelectNumber, [SelectAction(5), NextPrevAction(true), EndAction]) == Some(Finished)
  {
    var sc := Script1000();
    var xs := [SelectAction(5), NextPrevAction(true), EndAction];
    FeedStep(sc, SelectNumber, xs);
    FeedStep(sc, Selected(5), xs[1..]);
    FeedStep(sc, Goodbye, xs[2..]);
  }

  /** The body accepts every action of the handle test after the start and
      runs to its end. */
  lemma BodyFeeds()
    ensures Feed(Script1000(), Hello, TestActions()[1..]) == Some(Finished)
  {
    var sc := Script1000();
    var head := [NextPrevAction(true), NextPrevAction(true), YesNoAction(true), NextPrevAction(true)];
    var walk := seq(Count, _ => NextPrevAction(true));
    var tail := [SelectAction(5), NextPrevAction(true), EndAction];
    assert TestActions()[1..] == head + walk + tail;
    HeadFeed();
    WalkForward(0);
    FeedAppend(sc, Hello, head, walk);
    TailFeed();
    FeedAppend(sc, Hello, head + walk, tail);
  }

  /** The handle test: the script runs to completion and every `Resume`
      returns. */
  lemma TestCompletes()
    ensures var d := Drive(Script1000(), Launch(Script1000()), TestActions());
      AllReturned(d.results) && d.handle.phase == Completed && d.handle.slot == None
  {
    var sc := Script1000();
    var acts := TestActions();
    assert acts == [StartAction] + acts[1..];
    BodyFeeds();
    StartThenDeliver(sc, acts[1..]);
    FinishedEnds();
  }

  /** After "Goodbye" the body has no prompt left. */
  lemma FinishedEnds()
    ensures Script1000().ask(Finished) == None
  {
  }
}
