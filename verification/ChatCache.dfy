/** llmx/cache.go, ChatCompletion: the chat cache with its singleflight group, as a machine whose steps
    are the points where calls can interleave. Keys are cache paths, one per cacheable request. */
module ChatCache {
  import opened Wrappers

  /** What the inner client answers: text, or a message with tool calls or without content. */
  datatype Answer = Plain(text: string) | Other(tag: nat)

  datatype Outcome = Success(answer: Answer) | Failure

  /** The flight of a key, as its leader carries it out: looking at the cache once more, asking the inner
      client, storing its text, and handing out the outcome. */
  datatype Flight =
    | NoFlight
    | Checking(leader: nat)
    | Asking(leader: nat)
    | Storing(leader: nat, text: string)
    | Landing(leader: nat, out: Outcome)

  /** stored is the cache file. given lists the cacheable answers of the inner client, lost counts those that
      failed to be stored or vanished from the disk. */
  datatype Key = Key(stored: Option<string>, flight: Flight, given: seq<string>, lost: nat)

  datatype Phase = Arriving | InFlight | Returned(out: Outcome) | Done(out: Outcome)

  datatype Call = Call(key: nat, phase: Phase, computed: bool)

  datatype State = State(keys: map<nat, Key>, calls: map<nat, Call>, hits: nat, misses: nat)

  datatype Step =
    | Enter(id: nat, key: nat)          // a call arrives and makes its first lookup
    | Join(id: nat)                     // having missed, it enters the group: leads, or waits
    | Recheck(key: nat)                 // the leader looks at the cache again
    | Reply(key: nat, reply: Outcome)   // the inner client answers, or fails
    | Write(key: nat, ok: bool)         // the answer is stored, or storing fails
    | Publish(key: nat)                 // the flight ends: the leader and its waiters have the outcome
    | Finish(id: nat)                   // a call counts its hit and returns
    | Lose(key: nat)                    // a cache file is deleted or corrupted

  const INIT := State(map[], map[], 0, 0)

  function At(s: State, k: nat): Key { if k in s.keys then s.keys[k] else Key(None, NoFlight, [], 0) }

  function Put(s: State, k: nat, x: Key): State { s.(keys := s.keys[k := x]) }

  function PutCall(s: State, id: nat, c: Call): State { s.(calls := s.calls[id := c]) }

  predicate Enabled(s: State, step: Step) {
    match step
    case Enter(id, _) => id !in s.calls
    case Join(id) => id in s.calls && s.calls[id].phase == Arriving
    case Recheck(k) => At(s, k).flight.Checking?
    case Reply(k, _) => At(s, k).flight.Asking?
    case Write(k, _) => At(s, k).flight.Storing?
    case Publish(k) => At(s, k).flight.Landing?
    case Finish(id) => id in s.calls && s.calls[id].phase.Returned?
    case Lose(k) => At(s, k).stored.Some?
  }

  /** Every call in the flight of key receives the outcome. */
  function Deliver(calls: map<nat, Call>, key: nat, out: Outcome): map<nat, Call> {
    map i | i in calls ::
      if calls[i].key == key && calls[i].phase == InFlight then calls[i].(phase := Returned(out)) else calls[i]
  }

  /** What a step does to the key it concerns. */
  function NextKey(x: Key, step: Step): Key {
    match step
    case Join(id) => if x.flight == NoFlight then x.(flight := Checking(id)) else x
    case Recheck(_) =>
      if !x.flight.Checking? then x
      else if x.stored.Some? then x.(flight := Landing(x.flight.leader, Success(Plain(x.stored.value))))
      else x.(flight := Asking(x.flight.leader))
    case Reply(_, reply) =>
      if !x.flight.Asking? then x
      else if reply.Success? && reply.answer.Plain? && reply.answer.text != "" then
        x.(flight := Storing(x.flight.leader, reply.answer.text), given := x.given + [reply.answer.text])
      else x.(flight := Landing(x.flight.leader, reply))
    case Write(_, ok) =>
      if !x.flight.Storing? then x
      else if ok then
        x.(flight := Landing(x.flight.leader, Success(Plain(x.flight.text))), stored := Some(x.flight.text))
      else x.(flight := Landing(x.flight.leader, Failure), lost := x.lost + 1)
    case Publish(_) => if x.flight.Landing? then x.(flight := NoFlight) else x
    case Lose(_) => if x.stored.Some? then x.(stored := None, lost := x.lost + 1) else x
    case _ => x
  }

  function Next(s: State, step: Step): State
    requires Enabled(s, step)
  {
    match step
    case Enter(id, k) =>
      var x := At(s, k);
      if x.stored.Some? then
        PutCall(s, id, Call(k, Done(Success(Plain(x.stored.value))), false)).(hits := s.hits + 1)
      else PutCall(s, id, Call(k, Arriving, false))
    case Join(id) =>
      var c := s.calls[id];
      Put(PutCall(s, id, c.(phase := InFlight)), c.key, NextKey(At(s, c.key), step))
    case Recheck(k) =>
      var x, i := At(s, k), At(s, k).flight.leader;
      var t := Put(s, k, NextKey(x, step));
      if x.stored.None? && i in s.calls
      then PutCall(t, i, s.calls[i].(computed := true)).(misses := s.misses + 1)
      else t
    case Publish(k) =>
      Put(s, k, NextKey(At(s, k), step)).(calls := Deliver(s.calls, k, At(s, k).flight.out))
    case Finish(id) =>
      var c := s.calls[id];
      PutCall(s, id, c.(phase := Done(c.phase.out))).(
        hits := s.hits + if c.phase.out.Success? && !c.computed then 1 else 0)
    case _ => Put(s, step.key, NextKey(At(s, step.key), step))
  }

  /** The state after a run; a step that is not enabled does nothing. */
  function Run(steps: seq<Step>): State {
    if steps == [] then INIT
    else
      var s, step := Run(steps[..|steps| - 1]), steps[|steps| - 1];
      if Enabled(s, step) then Next(s, step) else s
  }

  // ---- what every reachable state satisfies ----

  predicate Known(x: Key, out: Outcome) {
    out.Success? && out.answer.Plain? && out.answer.text != "" ==> out.answer.text in x.given
  }

  /** The inner client is asked only while nothing is stored, so each answer beyond the first replaces a
      lost one, and the one held is the latest. */
  predicate Sound(x: Key) {
    && |x.given| == x.lost + (if x.stored.Some? || x.flight.Storing? then 1 else 0)
    && (x.stored.Some? ==> x.stored.value != "" && x.given != [] && x.stored.value == x.given[|x.given| - 1])
    && (x.flight.Asking? || x.flight.Storing? ==> x.stored.None?)
    && (x.flight.Storing? ==> x.flight.text != "" && x.given != [] && x.flight.text == x.given[|x.given| - 1])
    && (x.flight.Landing? ==> Known(x, x.flight.out))
  }

  lemma SoundKept(x: Key, step: Step)
    requires Sound(x)
    ensures Sound(NextKey(x, step)) && x.given <= NextKey(x, step).given
  {
  }

  predicate Settled(s: State, i: nat)
    requires i in s.calls
  {
    var c := s.calls[i];
    match c.phase
    case Arriving => !c.computed
    case InFlight => At(s, c.key).flight != NoFlight
    case Returned(out) => Known(At(s, c.key), out)
    case Done(out) => Known(At(s, c.key), out)
  }

  predicate Led(s: State, k: nat) {
    var f := At(s, k).flight;
    f != NoFlight ==>
      f.leader in s.calls && s.calls[f.leader].key == k && s.calls[f.leader].phase == InFlight
      && (f.Checking? ==> !s.calls[f.leader].computed)
  }

  ghost predicate Inv(s: State) {
    && (forall k :: Sound(At(s, k)))
    && (forall k :: Led(s, k))
    && (forall i | i in s.calls :: Settled(s, i))
  }

  function HitCalls(s: State): set<nat> {
    set i | i in s.calls && s.calls[i].phase.Done? && s.calls[i].phase.out.Success? && !s.calls[i].computed
  }

  function MissCalls(s: State): set<nat> { set i | i in s.calls && s.calls[i].computed }

  predicate Counted(s: State) { s.hits == |HitCalls(s)| && s.misses == |MissCalls(s)| }

  /** The key a step concerns, and every other key, after it. */
  lemma KeysAfter(s: State, step: Step, k: nat)
    requires Enabled(s, step)
    ensures At(Next(s, step), k) == At(s, k) || At(Next(s, step), k) == NextKey(At(s, k), step)
  {
  }

  lemma StepSound(s: State, step: Step, k: nat)
    requires Enabled(s, step) && Sound(At(s, k))
    ensures Sound(At(Next(s, step), k)) && At(s, k).given <= At(Next(s, step), k).given
  {
    KeysAfter(s, step, k);
    SoundKept(At(s, k), step);
  }

  lemma StepLed(s: State, step: Step, k: nat)
    requires Enabled(s, step) && Inv(s)
    ensures Led(Next(s, step), k)
  {
    assert Led(s, k);
    if step.Join? { assert Settled(s, step.id); }
    if step.Recheck? { assert Led(s, step.key); }
  }

  lemma StepSettled(s: State, step: Step, i: nat)
    requires Enabled(s, step) && Inv(s) && i in Next(s, step).calls
    ensures Settled(Next(s, step), i)
  {
    if step.Recheck? { RecheckSettled(s, step, i); } else { OtherSettled(s, step, i); }
  }

  lemma RecheckSettled(s: State, step: Step, i: nat)
    requires step.Recheck? && Enabled(s, step) && Inv(s) && i in Next(s, step).calls
    ensures Settled(Next(s, step), i)
  {
    var k := Next(s, step).calls[i].key;
    assert Sound(At(s, k)) && Led(s, k) && Settled(s, i) && Led(s, step.key);
    StepSound(s, step, k);
  }

  lemma OtherSettled(s: State, step: Step, i: nat)
    requires !step.Recheck? && Enabled(s, step) && Inv(s) && i in Next(s, step).calls
    ensures Settled(Next(s, step), i)
  {
    var k := Next(s, step).calls[i].key;
    assert Sound(At(s, k)) && Led(s, k);
    StepSound(s, step, k);
    if i in s.calls { assert Settled(s, i); }
  }

  lemma StepCounted(s: State, step: Step)
    requires Enabled(s, step) && Inv(s) && Counted(s)
    ensures Counted(Next(s, step))
  {
    match step
    case Enter(_, _) => EnterCounted(s, step);
    case Recheck(_) => RecheckCounted(s, step);
    case Finish(_) => FinishCounted(s, step);
    case Publish(_) => PublishCounted(s, step);
    case _ => OtherCounted(s, step);
  }

  lemma EnterCounted(s: State, step: Step)
    requires step.Enter? && Enabled(s, step) && Counted(s)
    ensures Counted(Next(s, step))
  {
    EnterHits(s, step);
    hide Next;
    assert MissCalls(Next(s, step)) == MissCalls(s) && step.id !in HitCalls(s);
  }

  lemma EnterHits(s: State, step: Step)
    requires step.Enter? && Enabled(s, step)
    ensures var t, hit := Next(s, step), At(s, step.key).stored.Some?;
      && HitCalls(t) == HitCalls(s) + (if hit then {step.id} else {}) && MissCalls(t) == MissCalls(s)
      && t.hits == s.hits + (if hit then 1 else 0) && t.misses == s.misses
  {
  }

  lemma RecheckCounted(s: State, step: Step)
    requires step.Recheck? && Enabled(s, step) && Counted(s) && Led(s, step.key)
    ensures Counted(Next(s, step))
  {
    assert HitCalls(Next(s, step)) == HitCalls(s);
    assert MissCalls(Next(s, step))
        == MissCalls(s) + if At(s, step.key).stored.None? then {At(s, step.key).flight.leader} else {};
  }

  lemma FinishCounted(s: State, step: Step)
    requires step.Finish? && Enabled(s, step) && Counted(s)
    ensures Counted(Next(s, step))
  {
    var c := s.calls[step.id];
    assert MissCalls(Next(s, step)) == MissCalls(s);
    assert HitCalls(Next(s, step)) == HitCalls(s) + if c.phase.out.Success? && !c.computed then {step.id} else {};
  }

  lemma PublishCounted(s: State, step: Step)
    requires step.Publish? && Enabled(s, step) && Counted(s)
    ensures Counted(Next(s, step))
  {
    assert HitCalls(Next(s, step)) == HitCalls(s) && MissCalls(Next(s, step)) == MissCalls(s);
  }

  lemma OtherCounted(s: State, step: Step)
    requires (step.Join? || step.Reply? || step.Write? || step.Lose?) && Enabled(s, step) && Counted(s)
    ensures Counted(Next(s, step))
  {
    assert HitCalls(Next(s, step)) == HitCalls(s) && MissCalls(Next(s, step)) == MissCalls(s);
  }

  lemma {:induction false} Reachable(steps: seq<Step>)
    ensures Inv(Run(steps)) && Counted(Run(steps))
  {
    if steps != [] {
      Reachable(steps[..|steps| - 1]);
      var s, step := Run(steps[..|steps| - 1]), steps[|steps| - 1];
      if Enabled(s, step) {
        forall k ensures Sound(At(Next(s, step), k)) { StepSound(s, step, k); }
        forall k ensures Led(Next(s, step), k) { StepLed(s, step, k); }
        forall i | i in Next(s, step).calls ensures Settled(Next(s, step), i) { StepSettled(s, step, i); }
        StepCounted(s, step);
      }
    }
  }

  // ---- the promises of the cache ----

  /** In any run, under any interleaving, the inner client gives at most one cacheable answer for a key,
      plus one for each that was not stored or was lost from the disk; the stored one is the latest. */
  lemma OneAnswerPerKey(steps: seq<Step>, k: nat)
    ensures var x := At(Run(steps), k);
      |x.given| <= 1 + x.lost
      && (x.stored.Some? ==> |x.given| == 1 + x.lost && x.stored.value == x.given[x.lost])
  {
    Reachable(steps);
    assert Sound(At(Run(steps), k));
  }

  /** The text a call has been handed. */
  function TextOf(c: Call): Option<string> {
    if (c.phase.Returned? || c.phase.Done?) && c.phase.out.Success? && c.phase.out.answer.Plain?
      && c.phase.out.answer.text != ""
    then Some(c.phase.out.answer.text) else None
  }

  /** Every text handed out was given by the inner client for that very key. */
  lemma TextsAreGiven(steps: seq<Step>, i: nat)
    requires i in Run(steps).calls && TextOf(Run(steps).calls[i]).Some?
    ensures TextOf(Run(steps).calls[i]).value in At(Run(steps), Run(steps).calls[i].key).given
  {
    Reachable(steps);
    assert Settled(Run(steps), i);
  }

  /** While nothing is lost, all callers of a key get the same text, and it is the stored one. */
  lemma EveryCallerGetsTheSameText(steps: seq<Step>, i: nat, j: nat)
    requires i in Run(steps).calls && j in Run(steps).calls && Run(steps).calls[i].key == Run(steps).calls[j].key
    requires TextOf(Run(steps).calls[i]).Some? && TextOf(Run(steps).calls[j]).Some?
    requires At(Run(steps), Run(steps).calls[i].key).lost == 0
    ensures TextOf(Run(steps).calls[i]) == TextOf(Run(steps).calls[j])
    ensures var x := At(Run(steps), Run(steps).calls[i].key); x.stored.Some? ==> x.stored == TextOf(Run(steps).calls[i])
  {
    TextsAreGiven(steps, i);
    TextsAreGiven(steps, j);
    OneAnswerPerKey(steps, Run(steps).calls[i].key);
  }

  /** A stored answer never changes while it stays on the disk. */
  lemma StoredAnswerStays(steps: seq<Step>, step: Step, k: nat)
    requires At(Run(steps), k).stored.Some? && step != Lose(k)
    ensures At(Run(steps + [step]), k).stored == At(Run(steps), k).stored
  {
    Reachable(steps);
    assert (steps + [step])[..|steps|] == steps;
    assert Sound(At(Run(steps), k));
  }

  /** Each successful call is counted once, as a hit or as a miss; a counted miss is a call that asked the
      inner client, successful or not. */
  lemma HitOrMiss(steps: seq<Step>)
    ensures var s := Run(steps);
      && s.hits == |HitCalls(s)| && s.misses == |MissCalls(s)| && HitCalls(s) !! MissCalls(s)
      && forall i | i in s.calls && s.calls[i].phase.Done? && s.calls[i].phase.out.Success? ::
          i in HitCalls(s) + MissCalls(s)
  {
    Reachable(steps);
  }

  /** The step that moves a call on when it is not done: its own, or the one its flight is waiting for. */
  function MovingStep(s: State, i: nat): Step
    requires i in s.calls
  {
    var k := s.calls[i].key;
    match s.calls[i].phase
    case Arriving => Join(i)
    case Returned(_) => Finish(i)
    case _ =>
      match At(s, k).flight
      case Checking(_) => Recheck(k)
      case Asking(_) => Reply(k, Failure)
      case Storing(_, _) => Write(k, true)
      case _ => Publish(k)
  }

  /** No call waits for a flight nobody flies. */
  lemma {:induction false} NobodyIsStranded(steps: seq<Step>, i: nat)
    requires i in Run(steps).calls && !Run(steps).calls[i].phase.Done?
    ensures Enabled(Run(steps), MovingStep(Run(steps), i))
  {
    Reachable(steps);
    assert Settled(Run(steps), i);
  }

  // ---- what a call ends with, told from the steps of the run ----

  /** Step n of the run is that one, and it was taken. */
  ghost predicate Taken(steps: seq<Step>, n: nat, step: Step) {
    n < |steps| && steps[n] == step && Enabled(Run(steps[..n]), step)
  }

  predicate Turns(step: Step, k: nat) {
    match step
    case Recheck(key) => key == k
    case Reply(key, _) => key == k
    case Write(key, _) => key == k
    case Publish(key) => key == k
    case _ => false
  }

  /** From step a up to step b the flight of k stands still. */
  ghost predicate Still(steps: seq<Step>, a: nat, b: nat, k: nat) {
    forall n: nat | a <= n < b && n < |steps| && Turns(steps[n], k) :: !Taken(steps, n, steps[n])
  }

  predicate Cacheable(r: Outcome) { r.Success? && r.answer.Plain? && r.answer.text != "" }

  /** The leader found a stored text when it looked again. */
  ghost predicate FoundAt(steps: seq<Step>, n: nat, k: nat, out: Outcome) {
    && Taken(steps, n, Recheck(k)) && Still(steps, n + 1, |steps|, k)
    && At(Run(steps[..n]), k).stored.Some? && out == Success(Plain(At(Run(steps[..n]), k).stored.value))
  }

  /** The inner client gave a text, which is about to be stored. */
  ghost predicate TextAt(steps: seq<Step>, n: nat, k: nat, text: string) {
    Taken(steps, n, Reply(k, Success(Plain(text)))) && text != "" && Still(steps, n + 1, |steps|, k)
  }

  /** The inner client gave an answer that is not cached, or failed. */
  ghost predicate AnsweredAt(steps: seq<Step>, n: nat, k: nat, out: Outcome) {
    Taken(steps, n, Reply(k, out)) && !Cacheable(out) && Still(steps, n + 1, |steps|, k)
  }

  /** It gave a text, which was stored, or which could not be stored. */
  ghost predicate StoredAt(steps: seq<Step>, n: nat, k: nat, out: Outcome) {
    n < |steps| && Still(steps, n + 1, |steps|, k)
    && exists j: nat, text ::
         TextAt(steps[..n], j, k, text)
         && (  (Taken(steps, n, Write(k, true)) && out == Success(Plain(text)))
            || (Taken(steps, n, Write(k, false)) && out == Failure))
  }

  /** The flight of k has come to the outcome out, and nothing has happened to it since. */
  ghost predicate Outcomes(steps: seq<Step>, k: nat, out: Outcome) {
    exists n: nat :: FoundAt(steps, n, k, out) || AnsweredAt(steps, n, k, out) || StoredAt(steps, n, k, out)
  }

  lemma StillMore(steps: seq<Step>, a: nat, k: nat)
    requires steps != [] && Still(steps[..|steps| - 1], a, |steps| - 1, k)
    requires !(Turns(steps[|steps| - 1], k) && Enabled(Run(steps[..|steps| - 1]), steps[|steps| - 1]))
    ensures Still(steps, a, |steps|, k)
  {
    var init := steps[..|steps| - 1];
    forall n: nat | a <= n < |steps| && Turns(steps[n], k) ensures !Taken(steps, n, steps[n]) {
      if n < |init| {
        assert init[..n] == steps[..n] && init[n] == steps[n];
        assert !Taken(init, n, init[n]);
      }
    }
  }

  lemma TakenMore(steps: seq<Step>, n: nat, step: Step)
    requires steps != [] && Taken(steps[..|steps| - 1], n, step)
    ensures Taken(steps, n, step) && steps[..|steps| - 1][..n] == steps[..n]
  {
    assert steps[..|steps| - 1][..n] == steps[..n];
  }

  /** Nothing has happened to the flight in the last step. */
  lemma OutcomesStay(steps: seq<Step>, k: nat, out: Outcome)
    requires steps != [] && Outcomes(steps[..|steps| - 1], k, out)
    requires !(Turns(steps[|steps| - 1], k) && Enabled(Run(steps[..|steps| - 1]), steps[|steps| - 1]))
    ensures Outcomes(steps, k, out)
  {
    hide Turns, Enabled, Run;
    var init := steps[..|steps| - 1];
    var n: nat :| FoundAt(init, n, k, out) || AnsweredAt(init, n, k, out) || StoredAt(init, n, k, out);
    StillMore(steps, n + 1, k);
    assert init[..n] == steps[..n];
    assert Taken(init, n, init[n]) ==> Taken(steps, n, steps[n]);
    assert FoundAt(steps, n, k, out) || AnsweredAt(steps, n, k, out) || StoredAt(steps, n, k, out);
  }

  lemma TextStays(steps: seq<Step>, n: nat, k: nat, text: string)
    requires steps != [] && TextAt(steps[..|steps| - 1], n, k, text)
    requires !(Turns(steps[|steps| - 1], k) && Enabled(Run(steps[..|steps| - 1]), steps[|steps| - 1]))
    ensures TextAt(steps, n, k, text)
  {
    StillMore(steps, n + 1, k);
    TakenMore(steps, n, Reply(k, Success(Plain(text))));
  }

  /** A flight that is landing carries what the steps say; one that is storing, the text the client gave. */
  ghost predicate Explained(steps: seq<Step>, k: nat) {
    match At(Run(steps), k).flight
    case Landing(_, out) => Outcomes(steps, k, out)
    case Storing(_, text) => exists n: nat :: TextAt(steps, n, k, text)
    case _ => true
  }

  lemma FlightStays(s: State, step: Step, k: nat)
    requires Enabled(s, step) && !Turns(step, k)
    ensures At(Next(s, step), k).flight == At(s, k).flight
      || (At(s, k).flight == NoFlight && At(Next(s, step), k).flight.Checking?)
  {
  }

  lemma TurnLands(s: State, step: Step, k: nat)
    requires Enabled(s, step) && Turns(step, k)
    ensures match step
      case Recheck(_) =>
        if At(s, k).stored.Some? then
          At(Next(s, step), k).flight == Landing(At(s, k).flight.leader, Success(Plain(At(s, k).stored.value)))
        else At(Next(s, step), k).flight.Asking?
      case Reply(_, r) =>
        if Cacheable(r) then At(Next(s, step), k).flight == Storing(At(s, k).flight.leader, r.answer.text)
        else At(Next(s, step), k).flight == Landing(At(s, k).flight.leader, r)
      case Write(_, ok) =>
        At(Next(s, step), k).flight
          == Landing(At(s, k).flight.leader, if ok then Success(Plain(At(s, k).flight.text)) else Failure)
      case _ => At(Next(s, step), k).flight == NoFlight
  {
  }

  lemma {:induction false} FlightsExplained(steps: seq<Step>, k: nat)
    ensures Explained(steps, k)
  {
    if steps != [] {
      var init, n := steps[..|steps| - 1], |steps| - 1;
      FlightsExplained(init, k);
      var s, step := Run(init), steps[n];
      if Enabled(s, step) && Turns(step, k) {
        assert Taken(steps, n, step);
        TurnExplained(steps, k);
      } else {
        if Enabled(s, step) { FlightStays(s, step, k); }
        RestExplained(steps, k);
      }
    }
  }

  lemma RestExplained(steps: seq<Step>, k: nat)
    requires steps != [] && Explained(steps[..|steps| - 1], k)
    requires !(Turns(steps[|steps| - 1], k) && Enabled(Run(steps[..|steps| - 1]), steps[|steps| - 1]))
    requires At(Run(steps), k).flight == At(Run(steps[..|steps| - 1]), k).flight || At(Run(steps), k).flight.Checking?
    ensures Explained(steps, k)
  {
    hide Run, Turns, Enabled, Outcomes, TextAt;
    match At(Run(steps), k).flight
    case Landing(_, out) => OutcomesStay(steps, k, out);
    case Storing(_, text) =>
      var n: nat :| TextAt(steps[..|steps| - 1], n, k, text);
      TextStays(steps, n, k, text);
    case _ =>
  }

  lemma TurnExplained(steps: seq<Step>, k: nat)
    requires steps != [] && Explained(steps[..|steps| - 1], k)
    requires Turns(steps[|steps| - 1], k) && Taken(steps, |steps| - 1, steps[|steps| - 1])
    ensures Explained(steps, k)
  {
    var init, n := steps[..|steps| - 1], |steps| - 1;
    var s, step := Run(init), steps[n];
    TurnLands(s, step, k);
    assert Run(steps) == Next(s, step);
    assert Still(steps, n + 1, |steps|, k);
    hide Run, Next, At;
    match step
    case Recheck(_) =>
      assert At(s, k).stored.Some? ==> FoundAt(steps, n, k, Success(Plain(At(s, k).stored.value)));
    case Reply(_, r) =>
      assert Cacheable(r) ==> TextAt(steps, n, k, r.answer.text);
      assert !Cacheable(r) ==> AnsweredAt(steps, n, k, r);
    case Write(_, ok) =>
      var text := At(s, k).flight.text;
      var j: nat :| TextAt(init, j, k, text);
      assert steps[..n] == init;
      assert StoredAt(steps, n, k, if ok then Success(Plain(text)) else Failure);
    case _ =>
  }

  /** When a flight ends, its leader and every call that waits for it have the same outcome: the text its leader
      found, the reply of the inner client, or a failure to store its text. */
  lemma EveryCallerGetsTheOutcome(steps: seq<Step>, k: nat) returns (out: Outcome)
    requires At(Run(steps), k).flight.Landing?
    ensures Outcomes(steps, k, out)
    ensures Enabled(Run(steps), Publish(k))
    ensures forall i | i in Run(steps).calls && Run(steps).calls[i].key == k && Run(steps).calls[i].phase == InFlight ::
      i in Run(steps + [Publish(k)]).calls && Run(steps + [Publish(k)]).calls[i].phase == Returned(out)
  {
    FlightsExplained(steps, k);
    out := At(Run(steps), k).flight.out;
    assert (steps + [Publish(k)])[..|steps|] == steps;
  }

  /** Call i found a stored text when it arrived, and returned with it at once. */
  ghost predicate ServedAt(steps: seq<Step>, n: nat, i: nat, k: nat, out: Outcome) {
    && Taken(steps, n, Enter(i, k))
    && At(Run(steps[..n]), k).stored.Some? && out == Success(Plain(At(Run(steps[..n]), k).stored.value))
  }

  /** Call i was in the flight of k when it ended, and the flight ended so. */
  ghost predicate LandedAt(steps: seq<Step>, n: nat, i: nat, k: nat, out: Outcome) {
    && Taken(steps, n, Publish(k)) && Outcomes(steps[..n], k, out)
    && i in Run(steps[..n]).calls && Run(steps[..n]).calls[i].key == k && Run(steps[..n]).calls[i].phase == InFlight
  }

  ghost predicate Accounted(steps: seq<Step>, i: nat, c: Call) {
    (c.phase.Returned? || c.phase.Done?) ==>
      exists n: nat :: ServedAt(steps, n, i, c.key, c.phase.out) || LandedAt(steps, n, i, c.key, c.phase.out)
  }

  lemma AccountedStays(steps: seq<Step>, i: nat, c: Call)
    requires steps != [] && Accounted(steps[..|steps| - 1], i, c)
    ensures Accounted(steps, i, c)
  {
    hide Run, Enabled, Outcomes;
    var init := steps[..|steps| - 1];
    if c.phase.Returned? || c.phase.Done? {
      var n: nat :| ServedAt(init, n, i, c.key, c.phase.out) || LandedAt(init, n, i, c.key, c.phase.out);
      assert init[..n] == steps[..n];
      assert ServedAt(steps, n, i, c.key, c.phase.out) || LandedAt(steps, n, i, c.key, c.phase.out);
    }
  }

  /** What a call ends with: a text that was stored when it arrived, or the outcome of the flight it was in. */
  lemma {:induction false} CallsEndAccounted(steps: seq<Step>, i: nat)
    requires i in Run(steps).calls
    ensures Accounted(steps, i, Run(steps).calls[i])
  {
    if steps != [] {
      var init, n := steps[..|steps| - 1], |steps| - 1;
      var s, step := Run(init), steps[n];
      if i in s.calls {
        CallsEndAccounted(init, i);
        AccountedStays(steps, i, s.calls[i]);
      }
      if Enabled(s, step) {
        assert Taken(steps, n, step);
        StepAccounted(steps, i);
      }
    }
  }

  lemma CallsAfter(s: State, step: Step, i: nat)
    requires Enabled(s, step) && i in Next(s, step).calls
    ensures var c := Next(s, step).calls[i];
      match step
      case Enter(id, k) =>
        if i != id then i in s.calls && c == s.calls[i]
        else c.key == k && (c.phase == Arriving
                            || (At(s, k).stored.Some? && c.phase == Done(Success(Plain(At(s, k).stored.value)))))
      case Publish(k) =>
        i in s.calls
        && if s.calls[i].key == k && s.calls[i].phase == InFlight then
             c.key == k && c.phase == Returned(At(s, k).flight.out)
           else c == s.calls[i]
      case Finish(id) =>
        i in s.calls
        && if i != id then c == s.calls[i] else c.key == s.calls[i].key && c.phase == Done(s.calls[i].phase.out)
      case _ => i in s.calls && c.key == s.calls[i].key && (c.phase == s.calls[i].phase || c.phase == InFlight)
  {
  }

  lemma StepAccounted(steps: seq<Step>, i: nat)
    requires steps != [] && Enabled(Run(steps[..|steps| - 1]), steps[|steps| - 1])
    requires i in Run(steps).calls && Taken(steps, |steps| - 1, steps[|steps| - 1])
    requires i in Run(steps[..|steps| - 1]).calls ==> Accounted(steps, i, Run(steps[..|steps| - 1]).calls[i])
    ensures Accounted(steps, i, Run(steps).calls[i])
  {
    var init, n := steps[..|steps| - 1], |steps| - 1;
    var s, step := Run(init), steps[n];
    CallsAfter(s, step, i);
    var c := Run(steps).calls[i];
    assert steps[..n] == init && Run(steps) == Next(s, step);
    if step.Publish? { FlightsExplained(init, step.key); }
    hide Next, Run, At;
    if step.Enter? && c.phase.Done? && i == step.id {
      assert ServedAt(steps, n, i, c.key, c.phase.out);
    } else if step.Publish? && i in s.calls && s.calls[i].key == step.key && s.calls[i].phase == InFlight {
      assert LandedAt(steps, n, i, c.key, c.phase.out);
    }
  }

  /** Callers fail only when the inner client fails, or a text of its cannot be stored. */
  lemma NobodyFailsForNothing(steps: seq<Step>, i: nat)
    requires i in Run(steps).calls && Run(steps).calls[i].phase == Done(Failure)
    ensures var k := Run(steps).calls[i].key; Reply(k, Failure) in steps || Write(k, false) in steps
  {
    CallsEndAccounted(steps, i);
    var k := Run(steps).calls[i].key;
    var n: nat :| ServedAt(steps, n, i, k, Failure) || LandedAt(steps, n, i, k, Failure);
    var m: nat :| FoundAt(steps[..n], m, k, Failure) || AnsweredAt(steps[..n], m, k, Failure)
      || StoredAt(steps[..n], m, k, Failure);
    assert steps[..n][m] in steps;
  }

  /** A text that is stored is handed out at once, without a flight. */
  lemma StoredTextIsServed(steps: seq<Step>, i: nat, k: nat)
    requires i !in Run(steps).calls && At(Run(steps), k).stored.Some?
    ensures var s := Run(steps + [Enter(i, k)]);
      i in s.calls && s.calls[i].phase == Done(Success(Plain(At(Run(steps), k).stored.value)))
      && s.hits == Run(steps).hits + 1 && At(s, k) == At(Run(steps), k)
  {
    assert (steps + [Enter(i, k)])[..|steps|] == steps;
  }

  // ---- misses are questions put to the inner client ----

  /** The answers of the inner client in a run, failures among them. */
  ghost function Replies(steps: seq<Step>): nat {
    if steps == [] then 0
    else
      var step := steps[|steps| - 1];
      Replies(steps[..|steps| - 1]) + if step.Reply? && Enabled(Run(steps[..|steps| - 1]), step) then 1 else 0
  }

  function AskedKeys(s: State): set<nat> { set k | k in s.keys && s.keys[k].flight.Asking? }

  /** Each question put to the inner client is one miss: those answered, and those not answered yet. */
  lemma {:induction false} MissesAreQuestions(steps: seq<Step>)
    ensures Run(steps).misses == Replies(steps) + |AskedKeys(Run(steps))|
  {
    if steps != [] {
      var init := steps[..|steps| - 1];
      var s, step := Run(init), steps[|steps| - 1];
      MissesAreQuestions(init);
      Reachable(init);
      if Enabled(s, step) { StepAsks(s, step); }
    }
  }

  lemma StepAsks(s: State, step: Step)
    requires Enabled(s, step) && Inv(s)
    ensures Next(s, step).misses == s.misses + if step.Recheck? && At(s, step.key).stored.None? then 1 else 0
    ensures |AskedKeys(Next(s, step))| == |AskedKeys(s)|
      + (if step.Recheck? && At(s, step.key).stored.None? then 1 else 0) - if step.Reply? then 1 else 0
  {
    hide Next, Inv, AskedKeys, At, Enabled;
    StepMisses(s, step);
    var a, b := AskedKeys(s), AskedKeys(Next(s, step));
    forall k ensures k in b <==> AsksAfter(s, step, k) {
      AskedAfter(s, step, k);
      Asks(Next(s, step), k);
    }
    forall k ensures k in a <==> At(s, k).flight.Asking? { Asks(s, k); }
    if step.Recheck? {
      RecheckIsNew(s, step);
      if At(s, step.key).stored.None? { OneMore(a, b, step.key); } else { assert b == a; }
    } else if step.Reply? {
      RecheckIsNew(s, step);
      OneMore(b, a, step.key);
    } else {
      assert b == a;
    }
  }

  lemma RecheckIsNew(s: State, step: Step)
    requires Enabled(s, step)
    ensures step.Recheck? ==> !At(s, step.key).flight.Asking?
    ensures step.Reply? ==> At(s, step.key).flight.Asking?
  {
  }

  lemma OneMore(a: set<nat>, b: set<nat>, k: nat)
    requires k !in a && forall x: nat :: x in b <==> x in a || x == k
    ensures |b| == |a| + 1
  {
    assert b == a + {k};
  }

  predicate AsksAfter(s: State, step: Step, k: nat) {
    if step.Recheck? && step.key == k then At(s, k).stored.None?
    else At(s, k).flight.Asking? && !(step.Reply? && step.key == k)
  }

  lemma Asks(s: State, k: nat)
    ensures k in AskedKeys(s) <==> At(s, k).flight.Asking?
  {
  }

  lemma AskedAfter(s: State, step: Step, k: nat)
    requires Enabled(s, step)
    ensures At(Next(s, step), k).flight.Asking? <==> AsksAfter(s, step, k)
  {
    if Turns(step, k) { TurnLands(s, step, k); } else { FlightStays(s, step, k); }
    hide Next;
  }

  lemma StepMisses(s: State, step: Step)
    requires Enabled(s, step) && Inv(s)
    ensures Next(s, step).misses == s.misses + if step.Recheck? && At(s, step.key).stored.None? then 1 else 0
  {
    if step.Recheck? { assert Led(s, step.key); }
  }
}
