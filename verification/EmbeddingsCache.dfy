/** llmx/cache.go, Embeddings: batches served from a per-text cache, whose misses are fetched together
    and shared between concurrent calls, as a machine over the points where calls interleave. */
module EmbeddingsCache {
  import opened Wrappers

  type Vec = seq<real>

  /** The cache file of one text: namespace, dimensions and text, hashed. */
  type Path = nat

  /** The fetch of one list of missing texts: the inner client is asked, its vectors are stored one by one,
      and the outcome (vectors and usage, or an error) is handed out. */
  datatype Flight =
    | Asking(leader: nat)
    | Storing(leader: nat, next: nat, usage: nat)
    | Landing(leader: nat, result: Option<nat>)

  datatype Phase =
    | Looking
    | Arriving
    | InFlight
    | Returned(usage: Option<nat>)
    | Done(vectors: Option<seq<Vec>>)

  /** found holds what the lookups gave so far. computed: this call issued the fetch. owed: what the fetch cost,
      until the call reports it. */
  datatype Call = Call(inputs: seq<Path>, found: seq<Option<Vec>>, phase: Phase, computed: bool, owed: nat)

  /** billed is the usage of the inner calls made, reported what callers were told, wasted what was spent on
      answers that reached nobody because storing them failed or they had the wrong length. */
  datatype State = State(
    inner: Path -> Vec,
    store: map<Path, Vec>,
    flights: map<seq<Path>, Flight>,
    calls: seq<Call>,
    billed: nat,
    reported: nat,
    wasted: nat)

  datatype Answer = Vectors(usage: nat) | WrongLength(usage: nat) | Error

  datatype Step =
    | Enter(inputs: seq<Path>)
    | Look(id: nat)                                  // one lookup, in input order
    | Conclude(id: nat)                              // all looked up: done, or misses to fetch
    | Join(id: nat)                                  // enters the group: leads, or waits
    | Reply(paths: seq<Path>, answer: Answer)
    | Write(paths: seq<Path>, ok: bool)              // the next vector is stored, or storing fails
    | Publish(paths: seq<Path>)
    | Finish(id: nat)
    | Lose(path: Path)                               // a cache file is deleted or corrupted

  function Init(inner: Path -> Vec): State { State(inner, map[], map[], [], 0, 0, 0) }

  /** load: an empty vector is no entry. */
  function Lookup(s: State, p: Path): Option<Vec> {
    if p in s.store && s.store[p] != [] then Some(s.store[p]) else None
  }

  /** The positions whose lookup failed, in order. */
  function MissIndexes(found: seq<Option<Vec>>): (r: seq<nat>)
    ensures forall j | 0 <= j < |r| :: r[j] < |found| && found[r[j]].None?
  {
    if found == [] then []
    else
      var n := |found| - 1;
      MissIndexes(found[..n]) + if found[n].None? then [n] else []
  }

  function MissPaths(c: Call): seq<Path>
    requires |c.found| == |c.inputs|
  {
    var r := MissIndexes(c.found);
    seq(|r|, j requires 0 <= j < |r| => c.inputs[r[j]])
  }

  function Hits(found: seq<Option<Vec>>): seq<Vec> {
    seq(|found|, i requires 0 <= i < |found| => if found[i].Some? then found[i].value else [])
  }

  /** The first n fetched vectors put at the positions that missed. */
  function Fill(vs: seq<Vec>, at: seq<nat>, fetched: seq<Vec>, n: nat): (r: seq<Vec>)
    requires n <= |at| == |fetched| && forall j | 0 <= j < |at| :: at[j] < |vs|
    ensures |r| == |vs|
  {
    if n == 0 then vs else Fill(vs, at, fetched, n - 1)[at[n - 1] := fetched[n - 1]]
  }

  function Fetched(s: State, paths: seq<Path>): seq<Vec> {
    seq(|paths|, j requires 0 <= j < |paths| => s.inner(paths[j]))
  }

  function Assemble(s: State, c: Call): seq<Vec>
    requires |c.found| == |c.inputs|
  {
    var at := MissIndexes(c.found);
    Fill(Hits(c.found), at, Fetched(s, MissPaths(c)), |at|)
  }

  predicate Waits(c: Call, paths: seq<Path>) {
    c.phase == InFlight && |c.found| == |c.inputs| && MissPaths(c) == paths
  }

  predicate Enabled(s: State, step: Step) {
    match step
    case Enter(_) => true
    case Look(id) => id < |s.calls| && s.calls[id].phase == Looking && |s.calls[id].found| < |s.calls[id].inputs|
    case Conclude(id) => id < |s.calls| && s.calls[id].phase == Looking && |s.calls[id].found| == |s.calls[id].inputs|
    case Join(id) => id < |s.calls| && s.calls[id].phase == Arriving && |s.calls[id].found| == |s.calls[id].inputs|
    case Reply(ps, _) => ps in s.flights && s.flights[ps].Asking? && s.flights[ps].leader < |s.calls|
    case Write(ps, _) =>
      ps in s.flights && s.flights[ps].Storing? && s.flights[ps].next < |ps| && s.flights[ps].leader < |s.calls|
    case Publish(ps) => ps in s.flights && s.flights[ps].Landing?
    case Finish(id) => id < |s.calls| && s.calls[id].phase.Returned? && |s.calls[id].found| == |s.calls[id].inputs|
    case Lose(p) => p in s.store
  }

  function SetCall(s: State, id: nat, c: Call): State
    requires id < |s.calls|
  {
    s.(calls := s.calls[id := c])
  }

  function SetFlight(s: State, ps: seq<Path>, f: Flight): State { s.(flights := s.flights[ps := f]) }

  function Deliver(calls: seq<Call>, ps: seq<Path>, usage: Option<nat>): seq<Call> {
    seq(|calls|, i requires 0 <= i < |calls| =>
      if Waits(calls[i], ps) then calls[i].(phase := Returned(usage)) else calls[i])
  }

  function Next(s: State, step: Step): State
    requires Enabled(s, step)
  {
    match step
    case Enter(inputs) => s.(calls := s.calls + [Call(inputs, [], Looking, false, 0)])
    case Look(id) =>
      var c := s.calls[id];
      SetCall(s, id, c.(found := c.found + [Lookup(s, c.inputs[|c.found|])]))
    case Conclude(id) =>
      var c := s.calls[id];
      SetCall(s, id, c.(phase := if MissIndexes(c.found) == [] then Done(Some(Assemble(s, c))) else Arriving))
    case Join(id) =>
      var c := s.calls[id];
      if MissPaths(c) in s.flights then SetCall(s, id, c.(phase := InFlight))
      else SetFlight(SetCall(s, id, c.(phase := InFlight, computed := true)), MissPaths(c), Asking(id))
    case Reply(ps, answer) => NextReply(s, ps, answer)
    case Write(ps, ok) => NextWrite(s, ps, ok)
    case Publish(ps) => s.(calls := Deliver(s.calls, ps, s.flights[ps].result), flights := s.flights - {ps})
    case Finish(id) =>
      var c := s.calls[id];
      if c.phase.usage.None? then SetCall(s, id, c.(phase := Done(None)))
      else
        SetCall(s, id, c.(phase := Done(Some(Assemble(s, c))), owed := 0)).(
          reported := s.reported + if c.computed then c.phase.usage.value else 0)
    case Lose(p) => s.(store := s.store - {p})
  }

  function NextReply(s: State, ps: seq<Path>, answer: Answer): State
    requires Enabled(s, Reply(ps, answer))
  {
    var i := s.flights[ps].leader;
    match answer
    case Vectors(u) =>
      SetFlight(SetCall(s, i, s.calls[i].(owed := u)), ps, if ps == [] then Landing(i, Some(u)) else Storing(i, 0, u)).(
        billed := s.billed + u)
    case WrongLength(u) => SetFlight(s, ps, Landing(i, None)).(billed := s.billed + u, wasted := s.wasted + u)
    case Error => SetFlight(s, ps, Landing(i, None))
  }

  function NextWrite(s: State, ps: seq<Path>, ok: bool): State
    requires Enabled(s, Write(ps, ok))
  {
    var f := s.flights[ps];
    var p := ps[f.next];
    if ok then
      SetFlight(s, ps, if f.next + 1 == |ps| then Landing(f.leader, Some(f.usage)) else f.(next := f.next + 1)).(
        store := s.store[p := s.inner(p)])
    else
      SetFlight(SetCall(s, f.leader, s.calls[f.leader].(owed := 0)), ps, Landing(f.leader, None)).(
        wasted := s.wasted + f.usage)
  }

  function Run(inner: Path -> Vec, steps: seq<Step>): State {
    if steps == [] then Init(inner)
    else
      var s, step := Run(inner, steps[..|steps| - 1]), steps[|steps| - 1];
      if Enabled(s, step) then Next(s, step) else s
  }

  // ---- transparency ----

  predicate TrueStore(s: State) { forall p | p in s.store :: s.store[p] == s.inner(p) }

  predicate TrueVectors(s: State, c: Call, vs: seq<Vec>) {
    |vs| == |c.inputs| && forall i | 0 <= i < |vs| :: vs[i] == s.inner(c.inputs[i])
  }

  predicate TrueCall(s: State, c: Call) {
    && |c.found| <= |c.inputs|
    && (forall i | 0 <= i < |c.found| && c.found[i].Some? :: c.found[i].value == s.inner(c.inputs[i]))
    && (c.phase != Looking ==> |c.found| == |c.inputs|)
    && (c.phase.Done? && c.phase.vectors.Some? ==> TrueVectors(s, c, c.phase.vectors.value))
  }

  ghost predicate Transparent(s: State) {
    TrueStore(s) && forall i | 0 <= i < |s.calls| :: TrueCall(s, s.calls[i])
  }

  lemma {:induction false} MissesCover(found: seq<Option<Vec>>, i: nat)
    requires i < |found| && found[i].None?
    ensures i in MissIndexes(found)
  {
    var n := |found| - 1;
    if i < n { MissesCover(found[..n], i); }
  }

  /** Filling the misses completes the hits. */
  lemma {:induction false} FillRight(vs: seq<Vec>, at: seq<nat>, fetched: seq<Vec>, n: nat, i: nat, want: Vec)
    requires n <= |at| == |fetched| && (forall j | 0 <= j < |at| :: at[j] < |vs|) && i < |vs|
    requires forall j | 0 <= j < n && at[j] == i :: fetched[j] == want
    requires vs[i] == want || exists j | 0 <= j < n :: at[j] == i
    ensures Fill(vs, at, fetched, n)[i] == want
  {
    if n > 0 && at[n - 1] != i { FillRight(vs, at, fetched, n - 1, i, want); }
  }

  lemma AssembleRight(s: State, c: Call)
    requires TrueCall(s, c) && |c.found| == |c.inputs|
    ensures TrueVectors(s, c, Assemble(s, c))
  {
    var at := MissIndexes(c.found);
    forall i | 0 <= i < |c.inputs| ensures Assemble(s, c)[i] == s.inner(c.inputs[i]) {
      if c.found[i].None? {
        MissesCover(c.found, i);
        var j :| 0 <= j < |at| && at[j] == i;
      }
      FillRight(Hits(c.found), at, Fetched(s, MissPaths(c)), |at|, i, s.inner(c.inputs[i]));
    }
  }

  lemma StepStore(s: State, step: Step)
    requires Enabled(s, step) && TrueStore(s)
    ensures TrueStore(Next(s, step)) && Next(s, step).inner == s.inner
  {
  }

  lemma StepCall(s: State, step: Step, i: nat)
    requires Enabled(s, step) && Transparent(s) && i < |Next(s, step).calls|
    ensures TrueCall(s, Next(s, step).calls[i])
  {
    if step.Conclude? || step.Finish? { CallEnds(s, step, i); } else { CallGoesOn(s, step, i); }
  }

  lemma CallEnds(s: State, step: Step, i: nat)
    requires (step.Conclude? || step.Finish?) && Enabled(s, step) && Transparent(s) && i < |s.calls|
    ensures TrueCall(s, Next(s, step).calls[i])
  {
    assert TrueCall(s, s.calls[i]);
    if step.id == i { AssembleRight(s, s.calls[i]); }
  }

  lemma CallGoesOn(s: State, step: Step, i: nat)
    requires !step.Conclude? && !step.Finish? && Enabled(s, step) && Transparent(s) && i < |Next(s, step).calls|
    ensures TrueCall(s, Next(s, step).calls[i])
  {
    if i < |s.calls| { assert TrueCall(s, s.calls[i]); }
  }

  lemma SameInner(s: State, t: State, c: Call)
    requires s.inner == t.inner && TrueCall(s, c)
    ensures TrueCall(t, c)
  {
  }

  lemma {:induction false} ReachableTransparent(inner: Path -> Vec, steps: seq<Step>)
    ensures Transparent(Run(inner, steps)) && Run(inner, steps).inner == inner
  {
    if steps != [] {
      ReachableTransparent(inner, steps[..|steps| - 1]);
      var s, step := Run(inner, steps[..|steps| - 1]), steps[|steps| - 1];
      if Enabled(s, step) {
        StepStore(s, step);
        forall i | 0 <= i < |Next(s, step).calls| ensures TrueCall(Next(s, step), Next(s, step).calls[i]) {
          StepCall(s, step, i);
          SameInner(s, Next(s, step), Next(s, step).calls[i]);
        }
      }
    }
  }

  /** Under any interleaving a caller receives the inner client's vectors of its inputs, in input order,
      and every stored entry is the inner client's vector. */
  lemma CacheIsTransparent(inner: Path -> Vec, steps: seq<Step>, i: nat)
    requires i < |Run(inner, steps).calls| && Run(inner, steps).calls[i].phase.Done?
    requires Run(inner, steps).calls[i].phase.vectors.Some?
    ensures var c := Run(inner, steps).calls[i];
      c.phase.vectors.value == seq(|c.inputs|, j requires 0 <= j < |c.inputs| => inner(c.inputs[j]))
    ensures forall p | p in Run(inner, steps).store :: Run(inner, steps).store[p] == inner(p)
  {
    ReachableTransparent(inner, steps);
    assert TrueCall(Run(inner, steps), Run(inner, steps).calls[i]);
  }

  // ---- conservation of usage ----

  function Owed(calls: seq<Call>): nat {
    if calls == [] then 0 else Owed(calls[..|calls| - 1]) + calls[|calls| - 1].owed
  }

  lemma {:induction false} OwedUpdate(calls: seq<Call>, i: nat, c: Call)
    requires i < |calls|
    ensures Owed(calls[i := c]) == Owed(calls) - calls[i].owed + c.owed
  {
    var n := |calls| - 1;
    if i == n {
      assert calls[i := c][..n] == calls[..n];
    } else {
      assert calls[i := c][..n] == calls[..n][i := c];
      OwedUpdate(calls[..n], i, c);
    }
  }

  lemma {:induction false} OwedSame(a: seq<Call>, b: seq<Call>)
    requires |a| == |b| && forall i | 0 <= i < |a| :: a[i].owed == b[i].owed
    ensures Owed(a) == Owed(b)
  {
    if a != [] { OwedSame(a[..|a| - 1], b[..|b| - 1]); }
  }

  /** The usage a flight has run up and not yet handed to its leader's report. */
  function RunUp(f: Flight): nat {
    match f
    case Asking(_) => 0
    case Storing(_, _, u) => u
    case Landing(_, u) => if u.Some? then u.value else 0
  }

  /** A call owes exactly what the fetch it leads has run up, or what its own fetch returned with. */
  predicate Owes(s: State, i: nat)
    requires i < |s.calls|
  {
    var c := s.calls[i];
    match c.phase
    case InFlight =>
      |c.found| == |c.inputs| && MissPaths(c) in s.flights
      && (c.computed <==> s.flights[MissPaths(c)].leader == i)
      && c.owed == if c.computed then RunUp(s.flights[MissPaths(c)]) else 0
    case Returned(u) => c.owed == if c.computed && u.Some? then u.value else 0
    case Done(_) => c.owed == 0
    case _ => c.owed == 0 && !c.computed
  }

  predicate Led(s: State, ps: seq<Path>) {
    ps in s.flights ==> s.flights[ps].leader < |s.calls| && Waits(s.calls[s.flights[ps].leader], ps)
  }

  ghost predicate Books(s: State) {
    && (forall i | 0 <= i < |s.calls| :: Owes(s, i))
    && (forall ps :: Led(s, ps))
  }

  predicate Balanced(s: State) { s.billed == s.reported + s.wasted + Owed(s.calls) }

  lemma StepOwes(s: State, step: Step, i: nat)
    requires Enabled(s, step) && Books(s) && i < |Next(s, step).calls|
    ensures Owes(Next(s, step), i)
  {
    hide Owes, Books;
    match step
    case Join(_) => JoinOwes(s, step, i);
    case Reply(_, _) => ReplyOwes(s, step, i);
    case Write(_, _) => WriteOwes(s, step, i);
    case Publish(_) => PublishOwes(s, step, i);
    case _ => CallOwes(s, step, i);
  }

  lemma CallOwes(s: State, step: Step, i: nat)
    requires !step.Join? && !step.Reply? && !step.Write? && !step.Publish?
    requires Enabled(s, step) && Books(s) && i < |Next(s, step).calls|
    ensures Owes(Next(s, step), i)
  {
    if i < |s.calls| { assert Owes(s, i); }
  }

  lemma JoinOwes(s: State, step: Step, i: nat)
    requires step.Join? && Enabled(s, step) && Books(s) && i < |s.calls|
    ensures Owes(Next(s, step), i)
  {
    assert Owes(s, i) && Led(s, MissPaths(s.calls[step.id]));
  }

  lemma ReplyOwes(s: State, step: Step, i: nat)
    requires step.Reply? && Enabled(s, step) && Books(s) && i < |s.calls|
    ensures Owes(Next(s, step), i)
  {
    assert Owes(s, i) && Led(s, step.paths) && Owes(s, s.flights[step.paths].leader);
  }

  lemma WriteOwes(s: State, step: Step, i: nat)
    requires step.Write? && Enabled(s, step) && Books(s) && i < |s.calls|
    ensures Owes(Next(s, step), i)
  {
    assert Owes(s, i) && Led(s, step.paths) && Owes(s, s.flights[step.paths].leader);
  }

  lemma PublishOwes(s: State, step: Step, i: nat)
    requires step.Publish? && Enabled(s, step) && Books(s) && i < |s.calls|
    ensures Owes(Next(s, step), i)
  {
    assert Owes(s, i) && Led(s, step.paths);
  }

  lemma StepLed(s: State, step: Step, ps: seq<Path>)
    requires Enabled(s, step) && Books(s)
    ensures Led(Next(s, step), ps)
  {
    assert Led(s, ps);
  }

  lemma StepBalanced(s: State, step: Step)
    requires Enabled(s, step) && Books(s) && Balanced(s)
    ensures Balanced(Next(s, step))
  {
    hide Balanced, Books;
    match step
    case Enter(_) => EnterBalanced(s, step);
    case Look(_) | Conclude(_) | Join(_) | Finish(_) => CallBalanced(s, step);
    case Reply(_, _) | Write(_, _) => FlightBalanced(s, step);
    case Publish(_) | Lose(_) => RestBalanced(s, step);
  }

  lemma EnterBalanced(s: State, step: Step)
    requires step.Enter? && Enabled(s, step) && Balanced(s)
    ensures Balanced(Next(s, step))
  {
    assert Next(s, step).calls[..|s.calls|] == s.calls;
  }

  lemma CallBalanced(s: State, step: Step)
    requires (step.Look? || step.Conclude? || step.Join? || step.Finish?) && Enabled(s, step) && Books(s) && Balanced(s)
    ensures Balanced(Next(s, step))
  {
    assert Owes(s, step.id);
    OwedUpdate(s.calls, step.id, Next(s, step).calls[step.id]);
  }

  lemma FlightBalanced(s: State, step: Step)
    requires (step.Reply? || step.Write?) && Enabled(s, step) && Books(s) && Balanced(s)
    ensures Balanced(Next(s, step))
  {
    var i := s.flights[step.paths].leader;
    assert Led(s, step.paths) && Owes(s, i);
    OwedUpdate(s.calls, i, Next(s, step).calls[i]);
  }

  lemma RestBalanced(s: State, step: Step)
    requires (step.Publish? || step.Lose?) && Enabled(s, step) && Books(s) && Balanced(s)
    ensures Balanced(Next(s, step))
  {
    if step.Publish? { OwedSame(s.calls, Next(s, step).calls); }
  }

  lemma {:induction false} ReachableBooks(inner: Path -> Vec, steps: seq<Step>)
    ensures Books(Run(inner, steps)) && Balanced(Run(inner, steps))
  {
    if steps != [] {
      ReachableBooks(inner, steps[..|steps| - 1]);
      var s, step := Run(inner, steps[..|steps| - 1]), steps[|steps| - 1];
      if Enabled(s, step) {
        forall i | 0 <= i < |Next(s, step).calls| ensures Owes(Next(s, step), i) { StepOwes(s, step, i); }
        forall ps ensures Led(Next(s, step), ps) { StepLed(s, step, ps); }
        StepBalanced(s, step);
      }
    }
  }

  /** What the inner client billed is what callers were told, plus what calls still under way will report,
      plus what was wasted on answers that could not be stored or had the wrong length. Once every call is
      done and nothing was wasted, callers were told exactly what was billed. */
  lemma UsageIsConserved(inner: Path -> Vec, steps: seq<Step>)
    ensures var s := Run(inner, steps);
      && s.billed == s.reported + s.wasted + Owed(s.calls)
      && ((forall i | 0 <= i < |s.calls| :: s.calls[i].phase.Done?) && s.wasted == 0 ==> s.reported == s.billed)
  {
    ReachableBooks(inner, steps);
    var s := Run(inner, steps);
    if forall i | 0 <= i < |s.calls| :: s.calls[i].phase.Done? {
      forall i | 0 <= i < |s.calls| ensures s.calls[i].owed == 0 { assert Owes(s, i); }
      NothingOwed(s.calls);
    }
  }

  lemma {:induction false} NothingOwed(calls: seq<Call>)
    requires forall i | 0 <= i < |calls| :: calls[i].owed == 0
    ensures Owed(calls) == 0
  {
    if calls != [] { NothingOwed(calls[..|calls| - 1]); }
  }

  // ---- progress ----

  lemma {:induction false} MissesFewer(found: seq<Option<Vec>>)
    ensures |MissIndexes(found)| <= |found|
  {
    if found != [] { MissesFewer(found[..|found| - 1]); }
  }

  /** A call past its lookups has looked up every input; a flight that stores has a vector to store. */
  predicate Ready(c: Call) {
    |c.found| <= |c.inputs| && (c.phase != Looking && !c.phase.Done? ==> |c.found| == |c.inputs|)
  }

  predicate Storable(s: State, ps: seq<Path>) {
    ps in s.flights && s.flights[ps].Storing? ==> s.flights[ps].next < |ps|
  }

  ghost predicate Live(s: State) {
    && Books(s) && (forall i | 0 <= i < |s.calls| :: Ready(s.calls[i]))
    && forall ps :: Storable(s, ps)
  }

  lemma StepReady(s: State, step: Step, i: nat)
    requires Enabled(s, step) && Live(s) && i < |Next(s, step).calls|
    ensures Ready(Next(s, step).calls[i])
  {
    hide MissPaths, Assemble, Books;
    if i < |s.calls| { assert Ready(s.calls[i]); }
  }

  lemma StepStorable(s: State, step: Step, ps: seq<Path>)
    requires Enabled(s, step) && Live(s)
    ensures Storable(Next(s, step), ps)
  {
    hide Assemble, Books;
    assert Storable(s, ps);
  }

  lemma {:induction false} ReachableLive(inner: Path -> Vec, steps: seq<Step>)
    ensures Live(Run(inner, steps))
  {
    ReachableBooks(inner, steps);
    if steps != [] {
      ReachableLive(inner, steps[..|steps| - 1]);
      var s, step := Run(inner, steps[..|steps| - 1]), steps[|steps| - 1];
      if Enabled(s, step) {
        forall i | 0 <= i < |Next(s, step).calls| ensures Ready(Next(s, step).calls[i]) { StepReady(s, step, i); }
        forall ps ensures Storable(Next(s, step), ps) { StepStorable(s, step, ps); }
      }
    }
  }

  /** What lies before a call: lookups, the fetch it waits for, and its own return. */
  function Ahead(s: State, i: nat): nat
    requires i < |s.calls| && Ready(s.calls[i])
  {
    var c := s.calls[i];
    match c.phase
    case Looking => 2 * |c.inputs| - |c.found| + 5
    case Arriving => |c.inputs| + 4
    case InFlight => if MissPaths(c) in s.flights then Left(s.flights[MissPaths(c)], |MissPaths(c)|) else 2
    case Returned(_) => 1
    case Done(_) => 0
  }

  function Left(f: Flight, n: nat): nat {
    match f
    case Asking(_) => n + 3
    case Storing(_, next, _) => if next < n then n - next + 2 else 3
    case Landing(_, _) => 2
  }

  /** The steps of a call, and of the fetch it waits for. */
  predicate Moves(s: State, step: Step, i: nat)
    requires i < |s.calls| && Ready(s.calls[i])
  {
    var c := s.calls[i];
    match step
    case Look(id) => id == i
    case Conclude(id) => id == i
    case Join(id) => id == i
    case Finish(id) => id == i
    case Reply(ps, _) => c.phase == InFlight && ps == MissPaths(c)
    case Write(ps, _) => c.phase == InFlight && ps == MissPaths(c)
    case Publish(ps) => c.phase == InFlight && ps == MissPaths(c)
    case _ => false
  }

  /** A step that moves a call brings it nearer to its end, and no other step, of whatever call, takes it further
      away. */
  lemma StepAhead(s: State, step: Step, i: nat)
    requires Enabled(s, step) && Live(s) && i < |s.calls|
    ensures Ready(s.calls[i]) && i < |Next(s, step).calls| && Ready(Next(s, step).calls[i])
    ensures Nearer(s, step, i)
  {
    StepReady(s, step, i);
    assert Ready(s.calls[i]);
    hide Live, Ahead, Moves, Ready;
    match step
    case Look(_) | Conclude(_) | Finish(_) => OwnAhead(s, step, i);
    case Join(_) => JoinAhead(s, step, i);
    case Reply(_, _) => ReplyAhead(s, step, i);
    case Write(_, _) => WriteAhead(s, step, i);
    case Publish(_) => PublishAhead(s, step, i);
    case Enter(_) | Lose(_) => RestAhead(s, step, i);
  }

  predicate Nearer(s: State, step: Step, i: nat) {
    && Enabled(s, step) && i < |s.calls| && i < |Next(s, step).calls|
    && Ready(s.calls[i]) && Ready(Next(s, step).calls[i]) && Next(s, step).calls[i].inputs == s.calls[i].inputs
    && Ahead(Next(s, step), i) <= Ahead(s, i) - if Moves(s, step, i) then 1 else 0
  }

  lemma OwnAhead(s: State, step: Step, i: nat)
    requires (step.Look? || step.Conclude? || step.Finish?) && Enabled(s, step) && Live(s) && i < |s.calls|
    requires Ready(s.calls[i]) && Ready(Next(s, step).calls[i])
    ensures Nearer(s, step, i)
  {
    hide MissIndexes, Assemble, Live, MissPaths;
  }

  lemma JoinAhead(s: State, step: Step, i: nat)
    requires step.Join? && Enabled(s, step) && Live(s) && i < |s.calls|
    requires Ready(s.calls[i]) && Ready(Next(s, step).calls[i])
    ensures Nearer(s, step, i)
  {
    assert Owes(s, i);
    MissesFewer(s.calls[i].found);
    var ps := MissPaths(s.calls[step.id]);
    assert Led(s, ps) && Storable(s, ps);
    if step.id == i { PathsFewer(s.calls[i]); }
    hide MissIndexes, Assemble, Live, MissPaths, Owes;
    if step.id != i { assert Next(s, step).calls[i] == s.calls[i]; }
  }

  lemma PathsFewer(c: Call)
    requires |c.found| == |c.inputs|
    ensures |MissPaths(c)| <= |c.inputs|
  {
    MissesFewer(c.found);
  }

  /** A flight left as it is, or brought nearer to its landing. */
  lemma FlightAhead(s: State, t: State, i: nat, ps: seq<Path>)
    requires i < |s.calls| == |t.calls| && Ready(s.calls[i]) && Ready(t.calls[i])
    requires t.calls[i] == s.calls[i].(owed := t.calls[i].owed)
    requires forall qs | qs != ps && qs in s.flights :: qs in t.flights && t.flights[qs] == s.flights[qs]
    requires forall qs | qs !in s.flights :: qs !in t.flights
    requires ps in s.flights && ps in t.flights && Left(t.flights[ps], |ps|) < Left(s.flights[ps], |ps|)
    ensures Ahead(t, i) <= Ahead(s, i)
    ensures s.calls[i].phase == InFlight && MissPaths(s.calls[i]) == ps ==> Ahead(t, i) < Ahead(s, i)
  {
    hide MissIndexes, Left;
  }

  lemma ReplyAhead(s: State, step: Step, i: nat)
    requires step.Reply? && Enabled(s, step) && Live(s) && i < |s.calls|
    requires Ready(s.calls[i]) && Ready(Next(s, step).calls[i])
    ensures Nearer(s, step, i)
  {
    hide MissIndexes, MissPaths, Assemble, Live, Ahead;
    FlightAhead(s, Next(s, step), i, step.paths);
  }

  lemma WriteAhead(s: State, step: Step, i: nat)
    requires step.Write? && Enabled(s, step) && Live(s) && i < |s.calls|
    requires Ready(s.calls[i]) && Ready(Next(s, step).calls[i])
    ensures Nearer(s, step, i)
  {
    hide MissIndexes, MissPaths, Assemble, Live, Ahead;
    FlightAhead(s, Next(s, step), i, step.paths);
  }

  lemma PublishAhead(s: State, step: Step, i: nat)
    requires step.Publish? && Enabled(s, step) && Live(s) && i < |s.calls|
    requires Ready(s.calls[i]) && Ready(Next(s, step).calls[i])
    ensures Nearer(s, step, i)
  {
    assert Owes(s, i);
    hide MissIndexes, MissPaths, Assemble, Live, Owes;
  }

  lemma RestAhead(s: State, step: Step, i: nat)
    requires (step.Enter? || step.Lose?) && Enabled(s, step) && Live(s) && i < |s.calls|
    requires Ready(s.calls[i]) && Ready(Next(s, step).calls[i])
    ensures Nearer(s, step, i)
  {
    hide MissIndexes, MissPaths, Assemble, Live;
  }

  /** The steps of a run that move call i. */
  function MovesOf(inner: Path -> Vec, steps: seq<Step>, i: nat): nat {
    if steps == [] then 0
    else
      var s, step := Run(inner, steps[..|steps| - 1]), steps[|steps| - 1];
      MovesOf(inner, steps[..|steps| - 1], i)
      + if i < |s.calls| && Ready(s.calls[i]) && Enabled(s, step) && Moves(s, step, i) then 1 else 0
  }

  /** Whatever the other calls do, a call is done after at most 2n + 5 steps of its own or of its fetch, for n
      inputs. */
  lemma {:induction false} FewMovesAreEnough(inner: Path -> Vec, steps: seq<Step>, i: nat)
    requires i < |Run(inner, steps).calls|
    ensures Ready(Run(inner, steps).calls[i])
    ensures MovesOf(inner, steps, i) + Ahead(Run(inner, steps), i) <= 2 * |Run(inner, steps).calls[i].inputs| + 5
  {
    ReachableLive(inner, steps);
    if steps != [] {
      var init, step := steps[..|steps| - 1], steps[|steps| - 1];
      var s := Run(inner, init);
      ReachableLive(inner, init);
      hide Live, Moves, Ahead, Ready;
      if i < |s.calls| {
        FewMovesAreEnough(inner, init, i);
        if Enabled(s, step) { StepAhead(s, step, i); }
      } else {
        NotThere(inner, init, i);
        Entered(s, step, i);
      }
    }
  }

  lemma Entered(s: State, step: Step, i: nat)
    requires Enabled(s, step) && |s.calls| <= i < |Next(s, step).calls|
    ensures Ready(Next(s, step).calls[i]) && Ahead(Next(s, step), i) == 2 * |Next(s, step).calls[i].inputs| + 5
  {
  }

  lemma CallsStay(s: State, step: Step)
    requires Enabled(s, step)
    ensures |s.calls| <= |Next(s, step).calls|
  {
  }

  lemma {:induction false} NotThere(inner: Path -> Vec, steps: seq<Step>, i: nat)
    requires i >= |Run(inner, steps).calls|
    ensures MovesOf(inner, steps, i) == 0
  {
    if steps != [] {
      var s, step := Run(inner, steps[..|steps| - 1]), steps[|steps| - 1];
      if Enabled(s, step) { CallsStay(s, step); }
      NotThere(inner, steps[..|steps| - 1], i);
    }
  }

  /** A step that moves call i, whatever the inner client answers and whether storing succeeds. */
  function MovingStep(s: State, i: nat, answer: Answer, ok: bool): Step
    requires i < |s.calls| && Ready(s.calls[i])
  {
    var c := s.calls[i];
    match c.phase
    case Looking => if |c.found| < |c.inputs| then Look(i) else Conclude(i)
    case Arriving => Join(i)
    case InFlight =>
      var ps := MissPaths(c);
      if ps !in s.flights then Publish(ps)
      else (match s.flights[ps]
            case Asking(_) => Reply(ps, answer)
            case Storing(_, _, _) => Write(ps, ok)
            case Landing(_, _) => Publish(ps))
    case _ => Finish(i)
  }

  /** No call waits for a fetch that nobody carries out. */
  lemma NobodyIsStranded(inner: Path -> Vec, steps: seq<Step>, i: nat, answer: Answer, ok: bool)
    requires i < |Run(inner, steps).calls| && !Run(inner, steps).calls[i].phase.Done?
    ensures Ready(Run(inner, steps).calls[i])
    ensures var s := Run(inner, steps); var step := MovingStep(s, i, answer, ok); Enabled(s, step) && Moves(s, step, i)
  {
    ReachableLive(inner, steps);
    var s := Run(inner, steps);
    assert Ready(s.calls[i]) && Owes(s, i);
    if s.calls[i].phase == InFlight { assert Led(s, MissPaths(s.calls[i])) && Storable(s, MissPaths(s.calls[i])); }
  }

  // ---- failures ----

  /** The inner client fails on the fetch of ps, answers with the wrong number of vectors, or one cannot be stored. */
  predicate Breaks(step: Step, ps: seq<Path>) {
    (step.Reply? && step.paths == ps && !step.answer.Vectors?) || step == Write(ps, false)
  }

  predicate Broken(steps: seq<Step>, ps: seq<Path>) { exists step | step in steps :: Breaks(step, ps) }

  predicate Failing(c: Call) { c.phase == Returned(None) || c.phase == Done(None) }

  predicate FailsFairly(steps: seq<Step>, c: Call) {
    Failing(c) ==> |c.found| == |c.inputs| && Broken(steps, MissPaths(c))
  }

  predicate LandsFairly(steps: seq<Step>, s: State, ps: seq<Path>) {
    ps in s.flights && s.flights[ps].Landing? && s.flights[ps].result.None? ==> Broken(steps, ps)
  }

  ghost predicate Fair(steps: seq<Step>, s: State) {
    && (forall i | 0 <= i < |s.calls| :: FailsFairly(steps, s.calls[i]))
    && forall ps :: LandsFairly(steps, s, ps)
  }

  lemma StepLandsFairly(steps: seq<Step>, s: State, step: Step, ps: seq<Path>)
    requires Enabled(s, step) && Fair(steps, s)
    ensures LandsFairly(steps + [step], Next(s, step), ps)
  {
    hide Assemble, MissPaths, Deliver, FailsFairly;
    assert LandsFairly(steps, s, ps);
    assert Broken(steps, ps) || Breaks(step, ps) ==> Broken(steps + [step], ps) by { BrokenMore(steps, step, ps); }
  }

  lemma BrokenMore(steps: seq<Step>, step: Step, ps: seq<Path>)
    ensures Broken(steps, ps) || Breaks(step, ps) ==> Broken(steps + [step], ps)
  {
    assert step in steps + [step];
    assert forall x | x in steps :: x in steps + [step];
  }

  lemma StepFailsFairly(steps: seq<Step>, s: State, step: Step, i: nat)
    requires Enabled(s, step) && Fair(steps, s) && i < |Next(s, step).calls|
    ensures FailsFairly(steps + [step], Next(s, step).calls[i])
  {
    hide Assemble, MissPaths, Breaks, Broken, LandsFairly;
    if i < |s.calls| {
      assert FailsFairly(steps, s.calls[i]);
      if |s.calls[i].found| == |s.calls[i].inputs| { BrokenMore(steps, step, MissPaths(s.calls[i])); }
      SamePaths(s.calls[i], Next(s, step).calls[i]);
      if step.Publish? {
        assert LandsFairly(steps, s, step.paths);
        LandsMeans(steps, s, step.paths);
        BrokenMore(steps, step, step.paths);
      }
    }
  }

  /** Which texts a call misses is settled by its lookups. */
  lemma SamePaths(c: Call, d: Call)
    ensures c.found == d.found && c.inputs == d.inputs && |c.found| == |c.inputs| ==> MissPaths(c) == MissPaths(d)
  {
  }

  lemma LandsMeans(steps: seq<Step>, s: State, ps: seq<Path>)
    requires LandsFairly(steps, s, ps)
    ensures ps in s.flights && s.flights[ps].Landing? && s.flights[ps].result.None? ==> Broken(steps, ps)
  {
  }

  lemma {:induction false} ReachableFair(inner: Path -> Vec, steps: seq<Step>)
    ensures Fair(steps, Run(inner, steps))
  {
    if steps != [] {
      var init, step := steps[..|steps| - 1], steps[|steps| - 1];
      var s := Run(inner, init);
      ReachableFair(inner, init);
      assert steps == init + [step];
      if Enabled(s, step) {
        forall i | 0 <= i < |Next(s, step).calls| ensures FailsFairly(steps, Next(s, step).calls[i]) {
          StepFailsFairly(init, s, step, i);
        }
        forall ps ensures LandsFairly(steps, Next(s, step), ps) { StepLandsFairly(init, s, step, ps); }
      } else {
        forall ps { BrokenMore(init, step, ps); }
        forall i | 0 <= i < |s.calls| ensures FailsFairly(steps, s.calls[i]) { assert FailsFairly(init, s.calls[i]); }
        forall ps ensures LandsFairly(steps, s, ps) { assert LandsFairly(init, s, ps); }
      }
    }
  }

  /** A call fails only when the fetch of its own missing texts did: the inner client failed, gave the wrong number of
      vectors, or a vector could not be stored. */
  lemma NobodyFailsForNothing(inner: Path -> Vec, steps: seq<Step>, i: nat)
    requires i < |Run(inner, steps).calls| && Run(inner, steps).calls[i].phase == Done(None)
    ensures var c := Run(inner, steps).calls[i]; |c.found| == |c.inputs| && Broken(steps, MissPaths(c))
  {
    ReachableFair(inner, steps);
    assert FailsFairly(steps, Run(inner, steps).calls[i]);
  }

  /** When a fetch ends, its leader and every call that waits for it have the same outcome. */
  lemma EveryCallerGetsTheOutcome(inner: Path -> Vec, steps: seq<Step>, ps: seq<Path>, i: nat)
    requires var s := Run(inner, steps);
      && ps in s.flights && s.flights[ps].Landing? && i < |s.calls| && Waits(s.calls[i], ps)
    ensures var s, t := Run(inner, steps), Run(inner, steps + [Publish(ps)]);
      && i < |t.calls| && t.calls[i] == s.calls[i].(phase := Returned(s.flights[ps].result))
      && (s.flights[ps].result.None? ==> Broken(steps, ps))
  {
    assert (steps + [Publish(ps)])[..|steps|] == steps;
    ReachableFair(inner, steps);
    assert LandsFairly(steps, Run(inner, steps), ps);
  }

  lemma RunOneMore(inner: Path -> Vec, steps: seq<Step>, step: Step)
    ensures Run(inner, steps + [step])
      == if Enabled(Run(inner, steps), step) then Next(Run(inner, steps), step) else Run(inner, steps)
  {
    assert (steps + [step])[..|steps|] == steps;
  }

  /** A fetch that breaks lands as a failure, whatever was stored before, and stores nothing more. */
  lemma BrokenFetchFails(inner: Path -> Vec, steps: seq<Step>, step: Step, ps: seq<Path>)
    requires Enabled(Run(inner, steps), step) && Breaks(step, ps)
    ensures var s, t := Run(inner, steps), Run(inner, steps + [step]);
      && ps in t.flights && t.flights[ps].Landing? && t.flights[ps].result.None? && t.store == s.store
  {
    RunOneMore(inner, steps, step);
  }

  /** The cache changes in two ways only: the next vector of a fetch is stored under its own text, or an entry is
      lost. */
  lemma CacheChanges(inner: Path -> Vec, steps: seq<Step>, step: Step, p: Path)
    ensures var s, t := Run(inner, steps), Run(inner, steps + [step]);
      && (p in t.store && p !in s.store ==>
          step.Write? && step.ok && p in step.paths && Enabled(s, step) && p == step.paths[s.flights[step.paths].next])
      && (p in s.store && p !in t.store <==> step == Lose(p) && p in s.store)
      && (p in t.store ==> t.store[p] == inner(p))
  {
    RunOneMore(inner, steps, step);
    ReachableTransparent(inner, steps + [step]);
    hide Assemble, MissPaths, Deliver, Fetched, TrueCall;
  }

  function Cost(answer: Answer): nat { if answer.Error? then 0 else answer.usage }

  /** What the answers of a run cost: those that came while the inner client was being asked. */
  function Bill(inner: Path -> Vec, steps: seq<Step>): nat {
    if steps == [] then 0
    else
      var n := |steps| - 1;
      Bill(inner, steps[..n])
        + if steps[n].Reply? && Enabled(Run(inner, steps[..n]), steps[n]) then Cost(steps[n].answer) else 0
  }

  /** Every answer of the inner client is billed once, answers of the wrong length included. */
  lemma {:induction false} EveryAnswerIsBilled(inner: Path -> Vec, steps: seq<Step>)
    ensures Run(inner, steps).billed == Bill(inner, steps)
  {
    if steps != [] {
      EveryAnswerIsBilled(inner, steps[..|steps| - 1]);
      hide Assemble, MissPaths, Deliver;
    }
  }

  // ---- what is fetched is stored, and what is stored is not fetched ----

  predicate NothingLost(steps: seq<Step>) { forall step | step in steps :: !step.Lose? }

  predicate AllStored(s: State, ps: seq<Path>) { forall p | p in ps :: p in s.store }

  /** What a flight has stored so far. */
  predicate FlightKeeps(s: State, ps: seq<Path>) {
    ps in s.flights ==>
      match s.flights[ps]
      case Asking(_) => true
      case Storing(_, next, _) => next <= |ps| && AllStored(s, ps[..next])
      case Landing(_, result) => result.Some? ==> AllStored(s, ps)
  }

  predicate CallKeeps(s: State, c: Call) {
    && |c.found| <= |c.inputs|
    && (forall j | 0 <= j < |c.found| && c.found[j].Some? :: c.inputs[j] in s.store)
    && match c.phase
       case Returned(usage) => usage.Some? ==> |c.found| == |c.inputs| && AllStored(s, MissPaths(c))
       case Done(vectors) => vectors.Some? ==> AllStored(s, c.inputs)
       case _ => true
  }

  ghost predicate Keeps(s: State) {
    && (forall i | 0 <= i < |s.calls| :: CallKeeps(s, s.calls[i]))
    && forall ps :: FlightKeeps(s, ps)
  }

  lemma StoreGrows(s: State, step: Step)
    requires Enabled(s, step) && !step.Lose?
    ensures s.store.Keys <= Next(s, step).store.Keys
    ensures step.Write? && step.ok ==> step.paths[s.flights[step.paths].next] in Next(s, step).store
  {
    hide Assemble, MissPaths, Deliver;
  }

  lemma StepFlightKeeps(s: State, step: Step, ps: seq<Path>)
    requires Enabled(s, step) && !step.Lose? && FlightKeeps(s, ps)
    ensures FlightKeeps(Next(s, step), ps)
  {
    StoreGrows(s, step);
    hide Assemble, MissPaths, Deliver;
    if step.Write? && step.ok && step.paths == ps {
      var n := s.flights[ps].next;
      assert ps[..n + 1] == ps[..n] + [ps[n]];
      assert ps[..|ps|] == ps;
    }
  }

  lemma AllCovered(s: State, c: Call)
    requires CallKeeps(s, c) && |c.found| == |c.inputs| && AllStored(s, MissPaths(c))
    ensures AllStored(s, c.inputs)
  {
    forall p | p in c.inputs ensures p in s.store {
      var j :| 0 <= j < |c.inputs| && c.inputs[j] == p;
      if c.found[j].None? {
        MissesCover(c.found, j);
        var m :| 0 <= m < |MissIndexes(c.found)| && MissIndexes(c.found)[m] == j;
        assert MissPaths(c)[m] == p;
      }
    }
  }

  lemma NoMisses(s: State, c: Call)
    requires CallKeeps(s, c) && |c.found| == |c.inputs|
    ensures MissIndexes(c.found) == [] ==> AllStored(s, c.inputs)
  {
    if MissIndexes(c.found) == [] { AllCovered(s, c); }
  }

  lemma CallKeepsOn(s: State, t: State, c: Call)
    requires CallKeeps(s, c) && s.store.Keys <= t.store.Keys
    ensures CallKeeps(t, c)
  {
    hide MissPaths;
  }

  lemma StepCallKeeps(s: State, step: Step, i: nat)
    requires Enabled(s, step) && !step.Lose? && Keeps(s) && i < |Next(s, step).calls|
    ensures CallKeeps(Next(s, step), Next(s, step).calls[i])
  {
    StoreGrows(s, step);
    assert i < |s.calls| ==> CallKeeps(s, s.calls[i]);
    hide Keeps, CallKeeps;
    if step.Conclude? || step.Finish? {
      EndKeeps(s, step, i);
    } else if step.Publish? {
      PublishKeeps(s, step, i);
    } else {
      OwnKeeps(s, step, i);
    }
    CallKeepsOn(s, Next(s, step), Next(s, step).calls[i]);
  }

  lemma OwnKeeps(s: State, step: Step, i: nat)
    requires Enabled(s, step) && !step.Conclude? && !step.Finish? && !step.Publish? && i < |Next(s, step).calls|
    requires i < |s.calls| ==> CallKeeps(s, s.calls[i])
    ensures CallKeeps(s, Next(s, step).calls[i])
  {
    if i < |s.calls| { SamePaths(s.calls[i], Next(s, step).calls[i]); }
    hide MissPaths, Assemble, MissIndexes, AllStored;
  }

  lemma EndKeeps(s: State, step: Step, i: nat)
    requires Enabled(s, step) && (step.Conclude? || step.Finish?) && i < |s.calls| && CallKeeps(s, s.calls[i])
    ensures CallKeeps(s, Next(s, step).calls[i])
  {
    var c := s.calls[i];
    if step.id == i {
      if |c.found| == |c.inputs| { NoMisses(s, c); }
      if step.Finish? && c.phase.usage.Some? { AllCovered(s, c); }
      hide MissPaths, Assemble, MissIndexes, AllStored;
    }
  }

  lemma PublishKeeps(s: State, step: Step, i: nat)
    requires Enabled(s, step) && step.Publish? && i < |s.calls| && Keeps(s)
    ensures CallKeeps(s, Next(s, step).calls[i])
  {
    assert CallKeeps(s, s.calls[i]);
    SamePaths(s.calls[i], Next(s, step).calls[i]);
    LandedKeeps(s, step.paths);
    hide MissPaths, Assemble, MissIndexes, AllStored, Keeps;
  }

  lemma LandedKeeps(s: State, ps: seq<Path>)
    requires Keeps(s) && ps in s.flights
    ensures s.flights[ps].Landing? && s.flights[ps].result.Some? ==> AllStored(s, ps)
  {
    assert FlightKeeps(s, ps);
  }

  lemma {:induction false} ReachableKeeps(inner: Path -> Vec, steps: seq<Step>)
    requires NothingLost(steps)
    ensures Keeps(Run(inner, steps))
  {
    if steps != [] {
      var init, step := steps[..|steps| - 1], steps[|steps| - 1];
      var s := Run(inner, init);
      ReachableKeeps(inner, init);
      if Enabled(s, step) {
        forall i | 0 <= i < |Next(s, step).calls| ensures CallKeeps(Next(s, step), Next(s, step).calls[i]) {
          StepCallKeeps(s, step, i);
        }
        forall ps ensures FlightKeeps(Next(s, step), ps) {
          assert FlightKeeps(s, ps);
          StepFlightKeeps(s, step, ps);
        }
      }
    }
  }

  /** While nothing is lost, every text of a call that succeeded is stored. */
  lemma AnsweredIsStored(inner: Path -> Vec, steps: seq<Step>, i: nat)
    requires NothingLost(steps) && i < |Run(inner, steps).calls|
    requires Run(inner, steps).calls[i].phase.Done? && Run(inner, steps).calls[i].phase.vectors.Some?
    ensures AllStored(Run(inner, steps), Run(inner, steps).calls[i].inputs)
  {
    ReachableKeeps(inner, steps);
    assert CallKeeps(Run(inner, steps), Run(inner, steps).calls[i]);
  }

  /** A call that finds what it looks up has nothing to fetch. */
  predicate Free(c: Call, inputs: seq<Path>) {
    && c.inputs == inputs && |c.found| <= |inputs| && !c.computed && c.owed == 0
    && (forall j | 0 <= j < |c.found| :: c.found[j].Some?)
    && (c.phase == Looking || (c.phase.Done? && c.phase.vectors.Some?))
  }

  predicate Legible(s: State, ps: seq<Path>) { forall p | p in ps :: p in s.store && s.store[p] != [] }

  lemma {:induction false} NoneMissing(found: seq<Option<Vec>>)
    requires forall j | 0 <= j < |found| :: found[j].Some?
    ensures MissIndexes(found) == []
  {
    if found != [] { NoneMissing(found[..|found| - 1]); }
  }

  lemma StepFree(s: State, step: Step, i: nat, inputs: seq<Path>)
    requires Enabled(s, step) && !step.Lose? && i < |s.calls| && Free(s.calls[i], inputs)
    requires Legible(s, inputs) && (forall p :: s.inner(p) != []) && (forall ps :: Led(s, ps))
    ensures i < |Next(s, step).calls| && Free(Next(s, step).calls[i], inputs)
    ensures Legible(Next(s, step), inputs) && Next(s, step).inner == s.inner
  {
    StoreKept(s, step, inputs);
    if step.Look? || step.Conclude? {
      LookFree(s, step, i, inputs);
    } else {
      RestFree(s, step, i, inputs);
    }
  }

  lemma StoreKept(s: State, step: Step, inputs: seq<Path>)
    requires Enabled(s, step) && !step.Lose? && Legible(s, inputs) && forall p :: s.inner(p) != []
    ensures Legible(Next(s, step), inputs) && Next(s, step).inner == s.inner
  {
    hide Assemble, MissPaths, Deliver;
  }

  lemma LookFree(s: State, step: Step, i: nat, inputs: seq<Path>)
    requires Enabled(s, step) && (step.Look? || step.Conclude?) && i < |s.calls| && Free(s.calls[i], inputs)
    requires Legible(s, inputs)
    ensures Free(Next(s, step).calls[i], inputs)
  {
    NoneMissing(s.calls[i].found);
    hide Assemble, MissPaths, MissIndexes;
  }

  /** A call that waits for nothing is not touched. */
  lemma RestFree(s: State, step: Step, i: nat, inputs: seq<Path>)
    requires Enabled(s, step) && !step.Look? && !step.Conclude? && i < |s.calls| && Free(s.calls[i], inputs)
    requires forall ps :: Led(s, ps)
    ensures i < |Next(s, step).calls| && Next(s, step).calls[i] == s.calls[i]
  {
    if step.Reply? || step.Write? { assert Led(s, step.paths); }
    hide Assemble, MissPaths, MissIndexes;
  }

  /** A call whose texts are all stored when it arrives never asks the inner client, whatever runs beside it, as long as
      nothing is lost and no vector is empty. */
  lemma {:induction false} StoredBatchIsFree(inner: Path -> Vec, before: seq<Step>, inputs: seq<Path>, after: seq<Step>)
    requires Legible(Run(inner, before), inputs) && NothingLost(after) && forall p :: inner(p) != []
    ensures var i, s := |Run(inner, before).calls|, Run(inner, before + [Enter(inputs)] + after);
      i < |s.calls| && Free(s.calls[i], inputs) && Legible(s, inputs)
    decreases |after|
  {
    var start, i := before + [Enter(inputs)], |Run(inner, before).calls|;
    assert start[..|before|] == before;
    if after == [] {
      assert start + after == start;
    } else {
      var init, step := after[..|after| - 1], after[|after| - 1];
      assert (start + after)[..|start + after| - 1] == start + init;
      StoredBatchIsFree(inner, before, inputs, init);
      ReachableBooks(inner, start + init);
      ReachableTransparent(inner, start + init);
      var s := Run(inner, start + init);
      if Enabled(s, step) { StepFree(s, step, i, inputs); }
    }
  }
}
