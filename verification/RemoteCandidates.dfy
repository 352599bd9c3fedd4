/** Remote ICE candidates: buffered until a remote description is applied, then drained
    through the executor, while any number of `add_remote_candidate` and
    `set_remote_description` calls run, fail, complete in any order or are cancelled. */
module RemoteCandidates {
  datatype Candidate = Candidate(candidate: string, mid: string)

  /** One call of either coroutine.  A "Ready" call has its executor result but has not
      resumed yet. */
  datatype Call =
    | Applying
    | Applied(ok: bool)
    | Draining(cur: Candidate, rest: seq<Candidate>)
    | DrainReady(rest: seq<Candidate>)
    | Adding(c: Candidate)
    | AddReady
    | Orphan(c: Candidate)     // cancelled while its executor call was already running
    | OrphanApplying           // the same for a remote description
    | Done

  datatype State = State(
    descriptionSet: bool,
    buffer: seq<Candidate>,
    calls: seq<Call>,
    submitted: seq<Candidate>,     // handed to the native side, whatever it answered
    // history
    added: seq<Candidate>,
    early: nat,                    // how many of them were buffered
    drained: seq<Candidate>,       // submitted by a drain
    drains: nat,                   // calls that took a non-empty buffer
    successes: nat,                // remote descriptions the native side accepted
    cut: bool,                     // some drain was cancelled
    lost: seq<Candidate>)

  datatype Action =
    | SetRemoteDescription
    | AddRemoteCandidate(c: Candidate)
    | ExecutorDone(call: nat, ok: bool)
    | Resume(call: nat)
    | Cancel(call: nat, started: bool)   // `started`: the executor had already begun the job

  const INIT := State(false, [], [], [], [], 0, [], 0, 0, false, [])

  /** `add_remote_candidate` up to its await: the new buffer, and whether to submit now. */
  function Accept(descriptionSet: bool, buffer: seq<Candidate>, c: Candidate): (seq<Candidate>, bool) {
    if !descriptionSet then (buffer + [c], false) else (buffer, true)
  }

  function NextDrain(rest: seq<Candidate>): Call {
    if rest == [] then Done else Draining(rest[0], rest[1..])
  }

  /** What an event does to the call it concerns: its next phase, the candidates it hands
      to the native side and those it forgets. */
  datatype Move = Move(next: Call, submits: seq<Candidate>, loses: seq<Candidate>)

  function ExecutorMove(c: Call, ok: bool): Move {
    match c
    case Applying => Move(Applied(ok), [], [])
    case Draining(cur, rest) => Move(DrainReady(rest), [cur], [])
    case Adding(x) => Move(AddReady, [x], [])
    case Orphan(x) => Move(Done, [x], [])
    case OrphanApplying => Move(Done, [], [])
    case _ => Move(c, [], [])
  }

  /** A successful remote description takes over the buffer. */
  function ResumeMove(c: Call, buffer: seq<Candidate>): Move {
    match c
    case Applied(ok) => Move(if ok then NextDrain(buffer) else Done, [], [])
    case DrainReady(rest) => Move(NextDrain(rest), [], [])
    case AddReady => Move(Done, [], [])
    case _ => Move(c, [], [])
  }

  /** Cancellation raises at the await; candidates no executor job owns yet are gone. */
  function CancelMove(c: Call, started: bool): Move {
    match c
    case Applying => Move(if started then OrphanApplying else Done, [], [])
    case Applied(_) => Move(Done, [], [])
    case Draining(cur, rest) => if started then Move(Orphan(cur), [], rest) else Move(Done, [], [cur] + rest)
    case DrainReady(rest) => Move(Done, [], rest)
    case Adding(x) => if started then Move(Orphan(x), [], []) else Move(Done, [], [x])
    case AddReady => Move(Done, [], [])
    case _ => Move(c, [], [])
  }

  function Apply(s: State, i: nat, m: Move): State
    requires i < |s.calls|
  {
    s.(calls := s.calls[i := m.next], submitted := s.submitted + m.submits, lost := s.lost + m.loses)
  }

  predicate IsDrain(c: Call) { c.Draining? || c.DrainReady? }

  function StepExecutor(s: State, i: nat, ok: bool): State
    requires i < |s.calls|
  {
    var c := s.calls[i];
    var m := ExecutorMove(c, ok);
    Apply(s, i, m).(drained := s.drained + (if IsDrain(c) then m.submits else []),
                    successes := s.successes + (if (c.Applying? || c.OrphanApplying?) && ok then 1 else 0))
  }

  function StepResume(s: State, i: nat): State
    requires i < |s.calls|
  {
    var s' := Apply(s, i, ResumeMove(s.calls[i], s.buffer));
    if s.calls[i] != Applied(true) then s'
    else s'.(descriptionSet := true, buffer := [], drains := s.drains + (if s.buffer == [] then 0 else 1))
  }

  function StepCancel(s: State, i: nat, started: bool): State
    requires i < |s.calls|
  {
    Apply(s, i, CancelMove(s.calls[i], started)).(cut := s.cut || IsDrain(s.calls[i]))
  }

  function Step(s: State, a: Action): State {
    match a
    case SetRemoteDescription => s.(calls := s.calls + [Applying])
    case AddRemoteCandidate(c) =>
      var (buffer, now) := Accept(s.descriptionSet, s.buffer, c);
      s.(buffer := buffer, calls := s.calls + [if now then Adding(c) else Done],
         added := s.added + [c], early := s.early + if now then 0 else 1)
    case ExecutorDone(i, ok) => if i < |s.calls| then StepExecutor(s, i, ok) else s
    case Resume(i) => if i < |s.calls| then StepResume(s, i) else s
    case Cancel(i, started) => if i < |s.calls| then StepCancel(s, i, started) else s
  }

  function Run(s: State, actions: seq<Action>): State
    decreases |actions|
  {
    if actions == [] then s else Run(Step(s, actions[0]), actions[1..])
  }

  lemma {:induction false} RunInvariant(s: State, actions: seq<Action>, inv: State -> bool)
    requires inv(s)
    requires forall t, a :: inv(t) ==> inv(Step(t, a))
    ensures inv(Run(s, actions))
    decreases |actions|
  {
    if actions != [] {
      RunInvariant(Step(s, actions[0]), actions[1..], inv);
    }
  }

  // ---- Conservation ------------------------------------------------------

  /** The candidates a call still carries, next one first. */
  function Carried(c: Call): seq<Candidate> {
    match c
    case Draining(cur, rest) => [cur] + rest
    case DrainReady(rest) => rest
    case Adding(x) => [x]
    case Orphan(x) => [x]
    case _ => []
  }

  /** How often `x` is in the hands of some call. */
  function HeldCount(calls: seq<Call>, x: Candidate): nat {
    Sum(HeldCounts(calls, x))
  }

  function Sum(ns: seq<nat>): nat {
    if ns == [] then 0 else ns[0] + Sum(ns[1..])
  }

  lemma {:induction false} SumUpdate(ns: seq<nat>, i: nat, n: nat)
    requires i < |ns|
    ensures Sum(ns[i := n]) == Sum(ns) - ns[i] + n
  {
    if i == 0 {
      assert ns[i := n][1..] == ns[1..];
    } else {
      SumUpdate(ns[1..], i - 1, n);
      assert ns[i := n][1..] == ns[1..][i - 1 := n];
    }
  }

  lemma {:induction false} SumAppend(ns: seq<nat>, n: nat)
    ensures Sum(ns + [n]) == Sum(ns) + n
  {
    if ns == [] {
      assert ns + [n] == [n] && [n][1..] == [];
    } else {
      SumAppend(ns[1..], n);
      assert (ns + [n])[1..] == ns[1..] + [n];
    }
  }

  lemma {:induction false} SumOfZeros(ns: seq<nat>)
    requires forall i :: 0 <= i < |ns| ==> ns[i] == 0
    ensures Sum(ns) == 0
  {
    if ns != [] { SumOfZeros(ns[1..]); }
  }

  function HeldCounts(calls: seq<Call>, x: Candidate): (ns: seq<nat>)
    ensures |ns| == |calls| && forall i :: 0 <= i < |calls| ==> ns[i] == multiset(Carried(calls[i]))[x]
  {
    seq(|calls|, i requires 0 <= i < |calls| => multiset(Carried(calls[i]))[x])
  }

  lemma HeldUpdate(calls: seq<Call>, i: nat, c: Call, x: Candidate)
    requires i < |calls|
    ensures HeldCount(calls[i := c], x) == HeldCount(calls, x) - multiset(Carried(calls[i]))[x]
        + multiset(Carried(c))[x]
  {
    var n := multiset(Carried(c))[x];
    SumUpdate(HeldCounts(calls, x), i, n);
    assert HeldCounts(calls[i := c], x) == HeldCounts(calls, x)[i := n];
  }

  lemma HeldAppend(calls: seq<Call>, c: Call, x: Candidate)
    ensures HeldCount(calls + [c], x) == HeldCount(calls, x) + multiset(Carried(c))[x]
  {
    var n := multiset(Carried(c))[x];
    SumAppend(HeldCounts(calls, x), n);
    assert HeldCounts(calls + [c], x) == HeldCounts(calls, x) + [n];
  }

  lemma NothingHeld(calls: seq<Call>, x: Candidate)
    requires forall i :: 0 <= i < |calls| ==> calls[i].Done?
    ensures HeldCount(calls, x) == 0
  {
    SumOfZeros(HeldCounts(calls, x));
  }

  /** Every copy of `x` ever added is in exactly one place. */
  predicate ConservedAt(s: State, x: Candidate) {
    multiset(s.added)[x] == multiset(s.buffer)[x] + HeldCount(s.calls, x) + multiset(s.submitted)[x]
        + multiset(s.lost)[x]
  }

  /** A move sends every candidate of its call (and of the buffer it takes over) to one
      place: handed over, still carried, or forgotten. */
  predicate Balanced(c: Call, intake: seq<Candidate>, m: Move) {
    Carried(c) + intake == m.submits + Carried(m.next) + m.loses
  }

  lemma ExecutorBalanced(c: Call, ok: bool)
    ensures Balanced(c, [], ExecutorMove(c, ok))
  {
  }

  lemma ResumeBalanced(c: Call, buffer: seq<Candidate>)
    ensures Balanced(c, if c == Applied(true) then buffer else [], ResumeMove(c, buffer))
  {
    match c
    case Applied(ok) => NextDrainCarries(buffer);
    case DrainReady(rest) => NextDrainCarries(rest);
    case _ =>
  }

  lemma NextDrainCarries(rest: seq<Candidate>)
    ensures Carried(NextDrain(rest)) == rest
  {
  }

  lemma CancelBalanced(c: Call, started: bool)
    ensures Balanced(c, [], CancelMove(c, started))
  {
  }

  lemma ApplyConserved(s: State, s': State, i: nat, m: Move, intake: seq<Candidate>, x: Candidate)
    requires i < |s.calls| && Balanced(s.calls[i], intake, m)
    requires s'.calls == s.calls[i := m.next] && s'.submitted == s.submitted + m.submits && s'.lost == s.lost + m.loses
    requires s'.added == s.added && s.buffer == intake + s'.buffer
    requires ConservedAt(s, x)
    ensures ConservedAt(s', x)
  {
    HeldUpdate(s.calls, i, m.next, x);
    assert multiset(Carried(s.calls[i]) + intake)[x] == multiset(m.submits + Carried(m.next) + m.loses)[x];
  }

  lemma ExecutorConserved(s: State, i: nat, ok: bool, x: Candidate)
    requires i < |s.calls| && ConservedAt(s, x)
    ensures ConservedAt(StepExecutor(s, i, ok), x)
  {
    ExecutorBalanced(s.calls[i], ok);
    ApplyConserved(s, StepExecutor(s, i, ok), i, ExecutorMove(s.calls[i], ok), [], x);
  }

  lemma ResumeConserved(s: State, i: nat, x: Candidate)
    requires i < |s.calls| && ConservedAt(s, x)
    ensures ConservedAt(StepResume(s, i), x)
  {
    var c := s.calls[i];
    var s' := StepResume(s, i);
    ResumeBalanced(c, s.buffer);
    if c == Applied(true) {
      assert s.buffer + s'.buffer == s.buffer;
      ApplyConserved(s, s', i, ResumeMove(c, s.buffer), s.buffer, x);
    } else {
      ApplyConserved(s, s', i, ResumeMove(c, s.buffer), [], x);
    }
  }

  lemma CancelConserved(s: State, i: nat, started: bool, x: Candidate)
    requires i < |s.calls| && ConservedAt(s, x)
    ensures ConservedAt(StepCancel(s, i, started), x)
  {
    CancelBalanced(s.calls[i], started);
    ApplyConserved(s, StepCancel(s, i, started), i, CancelMove(s.calls[i], started), [], x);
  }

  /** A new candidate goes to its own call or to the buffer. */
  lemma AppendConserved(s: State, s': State, call: Call, kept: seq<Candidate>, extra: seq<Candidate>, x: Candidate)
    requires extra == Carried(call) + kept
    requires s'.calls == s.calls + [call] && s'.added == s.added + extra && s'.buffer == s.buffer + kept
    requires s'.submitted == s.submitted && s'.lost == s.lost && ConservedAt(s, x)
    ensures ConservedAt(s', x)
  {
    HeldAppend(s.calls, call, x);
    assert multiset(extra)[x] == multiset(Carried(call))[x] + multiset(kept)[x];
  }

  lemma AddConserved(s: State, c: Candidate, x: Candidate)
    requires ConservedAt(s, x)
    ensures ConservedAt(Step(s, AddRemoteCandidate(c)), x)
  {
    var s' := Step(s, AddRemoteCandidate(c));
    if s.descriptionSet {
      AppendConserved(s, s', Adding(c), [], [c], x);
    } else {
      AppendConserved(s, s', Done, [c], [c], x);
    }
  }

  lemma AppliesConserved(s: State, x: Candidate)
    requires ConservedAt(s, x)
    ensures ConservedAt(Step(s, SetRemoteDescription), x)
  {
    AppendConserved(s, Step(s, SetRemoteDescription), Applying, [], [], x);
  }

  lemma CallConserved(s: State, a: Action, x: Candidate)
    requires ConservedAt(s, x) && (a.ExecutorDone? || a.Resume? || a.Cancel?)
    ensures ConservedAt(Step(s, a), x)
  {
    if a.call < |s.calls| {
      match a
      case ExecutorDone(i, ok) =>
        assert Step(s, a) == StepExecutor(s, i, ok);
        ExecutorConserved(s, i, ok, x);
      case Resume(i) =>
        assert Step(s, a) == StepResume(s, i);
        ResumeConserved(s, i, x);
      case Cancel(i, started) =>
        assert Step(s, a) == StepCancel(s, i, started);
        CancelConserved(s, i, started, x);
    } else {
      assert Step(s, a) == s;
    }
  }

  lemma StepConserved(s: State, a: Action, x: Candidate)
    requires ConservedAt(s, x)
    ensures ConservedAt(Step(s, a), x)
  {
    match a
    case SetRemoteDescription => AppliesConserved(s, x);
    case AddRemoteCandidate(c) => AddConserved(s, c, x);
    case _ => CallConserved(s, a, x);
  }

  // ---- Order -------------------------------------------------------------

  /** The candidates that were added before a remote description was set. */
  function Buffered(s: State): seq<Candidate> {
    if s.early <= |s.added| then s.added[..s.early] else s.added
  }

  predicate CallOrdered(s: State, c: Call) {
    && (IsDrain(c) ==> s.drains == 1 && !s.cut && s.drained + Carried(c) == Buffered(s))
    && (IsDrain(c) || c.Adding? || c.Orphan? ==> s.descriptionSet)
    && (c == Applied(true) ==> s.successes > 0)
  }

  predicate NoDrain(calls: seq<Call>) {
    forall i :: 0 <= i < |calls| ==> !IsDrain(calls[i])
  }

  predicate CallsOrdered(s: State) {
    && (forall i :: 0 <= i < |s.calls| ==> CallOrdered(s, s.calls[i]))
    && (forall i, j :: 0 <= i < j < |s.calls| ==> !IsDrain(s.calls[i]) || !IsDrain(s.calls[j]))
  }

  predicate FlagsOrdered(s: State) {
    && s.early <= |s.added|
    && (!s.descriptionSet ==> s.buffer == s.added && s.early == |s.added| && s.drains == 0 && s.submitted == [])
    && (s.descriptionSet ==> s.buffer == [] && s.successes > 0)
    && s.drains <= 1
    && (s.drains == 0 ==> s.drained == [] && !s.cut && (s.descriptionSet ==> s.early == 0))
  }

  predicate Ordered(s: State) {
    && FlagsOrdered(s)
    && CallsOrdered(s)
    && s.drained <= Buffered(s)
    && (s.descriptionSet && !s.cut && NoDrain(s.calls) ==> s.drained == Buffered(s))
  }

  lemma AppendOrdered(s: State, a: Action)
    requires Ordered(s) && (a.SetRemoteDescription? || a.AddRemoteCandidate?)
    ensures Ordered(Step(s, a))
  {
    var s' := Step(s, a);
    if s.descriptionSet {
      assert Buffered(s') == Buffered(s);
      assert forall i :: 0 <= i < |s.calls| ==> CallOrdered(s, s.calls[i]);
      assert NoDrain(s'.calls) ==> NoDrain(s.calls) by {
        assert forall i :: 0 <= i < |s.calls| ==> s'.calls[i] == s.calls[i];
      }
    }
  }

  lemma CallStepOrdered(s: State, s': State, i: nat)
    requires Ordered(s) && i < |s.calls| == |s'.calls| && FlagsOrdered(s')
    requires s'.calls == s.calls[i := s'.calls[i]]
    requires s'.added == s.added && s'.early == s.early && s'.descriptionSet == s.descriptionSet
    requires s'.successes >= s.successes && s'.drains == s.drains
    requires CallOrdered(s', s'.calls[i])
    requires IsDrain(s'.calls[i]) ==> IsDrain(s.calls[i])
    requires !IsDrain(s.calls[i]) ==> s'.drained == s.drained && s'.cut == s.cut
    requires s'.drained <= Buffered(s)
    requires IsDrain(s.calls[i]) && !IsDrain(s'.calls[i]) && !s'.cut ==> s'.drained == Buffered(s)
    ensures Ordered(s')
  {
    assert Buffered(s') == Buffered(s);
    forall j | 0 <= j < |s'.calls| ensures CallOrdered(s', s'.calls[j]) {
      if j != i { assert CallOrdered(s, s.calls[j]); }
    }
    if NoDrain(s'.calls) && !IsDrain(s.calls[i]) {
      forall j | 0 <= j < |s.calls| ensures !IsDrain(s.calls[j]) {
        if j != i { assert s'.calls[j] == s.calls[j]; }
      }
    }
  }

  lemma DrainedOneOrdered(s: State, i: nat, ok: bool, cur: Candidate, rest: seq<Candidate>)
    requires Ordered(s) && i < |s.calls| && s.calls[i] == Draining(cur, rest)
    ensures Ordered(StepExecutor(s, i, ok))
  {
    var s' := StepExecutor(s, i, ok);
    assert CallOrdered(s, s.calls[i]);
    PrefixGrows(s.drained, cur, rest, Buffered(s));
    assert s'.drained == s.drained + [cur] && s'.calls == s.calls[i := DrainReady(rest)];
    assert CallOrdered(s', DrainReady(rest));
    CallStepOrdered(s, s', i);
  }

  lemma PrefixGrows(drained: seq<Candidate>, cur: Candidate, rest: seq<Candidate>, all: seq<Candidate>)
    requires drained + ([cur] + rest) == all
    ensures drained + [cur] + rest == all && drained + [cur] <= all
  {
    assert drained + ([cur] + rest) == drained + [cur] + rest;
  }

  lemma ExecutorOrdered(s: State, i: nat, ok: bool)
    requires Ordered(s) && i < |s.calls|
    ensures Ordered(StepExecutor(s, i, ok))
  {
    var c := s.calls[i];
    if c.Draining? {
      DrainedOneOrdered(s, i, ok, c.cur, c.rest);
    } else {
      assert CallOrdered(s, c);
      CallStepOrdered(s, StepExecutor(s, i, ok), i);
    }
  }

  lemma CancelOrdered(s: State, i: nat, started: bool)
    requires Ordered(s) && i < |s.calls|
    ensures Ordered(StepCancel(s, i, started))
  {
    assert CallOrdered(s, s.calls[i]);
    CallStepOrdered(s, StepCancel(s, i, started), i);
  }

  /** The first successful description takes the buffer; nothing was drained before. */
  lemma FirstDescriptionOrdered(s: State, i: nat)
    requires Ordered(s) && i < |s.calls| && s.calls[i] == Applied(true) && !s.descriptionSet
    ensures Ordered(StepResume(s, i))
  {
    var s' := StepResume(s, i);
    var next := NextDrain(s.buffer);
    assert CallOrdered(s, s.calls[i]);
    assert Buffered(s') == s.buffer && s.drained == [];
    NextDrainCarries(s.buffer);
    assert CallOrdered(s', next);
    forall j | 0 <= j < |s.calls| && j != i ensures !IsDrain(s.calls[j]) && CallOrdered(s', s.calls[j]) {
      assert CallOrdered(s, s.calls[j]);
    }
    assert s'.calls == s.calls[i := next];
    if NoDrain(s'.calls) { assert !IsDrain(s'.calls[i]); }
  }

  lemma ResumeOrdered(s: State, i: nat)
    requires Ordered(s) && i < |s.calls|
    ensures Ordered(StepResume(s, i))
  {
    var c := s.calls[i];
    if c == Applied(true) && !s.descriptionSet {
      FirstDescriptionOrdered(s, i);
    } else {
      assert CallOrdered(s, c);
      if c.DrainReady? { NextDrainCarries(c.rest); }
      CallStepOrdered(s, StepResume(s, i), i);
    }
  }

  lemma StepOrdered(s: State, a: Action)
    requires Ordered(s)
    ensures Ordered(Step(s, a))
  {
    match a
    case ExecutorDone(i, ok) => if i < |s.calls| { ExecutorOrdered(s, i, ok); }
    case Resume(i) => if i < |s.calls| { ResumeOrdered(s, i); }
    case Cancel(i, started) => if i < |s.calls| { CancelOrdered(s, i, started); }
    case _ => AppendOrdered(s, a);
  }

  // ---- Main results ------------------------------------------------------

  lemma RunOrdered(actions: seq<Action>)
    ensures Ordered(Run(INIT, actions))
  {
    forall t, a | Ordered(t) ensures Ordered(Step(t, a)) { StepOrdered(t, a); }
    RunInvariant(INIT, actions, Ordered);
  }

  lemma RunConserved(actions: seq<Action>, x: Candidate)
    ensures ConservedAt(Run(INIT, actions), x)
  {
    var inv := (t: State) => ConservedAt(t, x);
    forall t, a | inv(t) ensures inv(Step(t, a)) { StepConserved(t, a, x); }
    RunInvariant(INIT, actions, inv);
  }

  predicate NeverCancels(actions: seq<Action>) {
    forall i :: 0 <= i < |actions| ==> !actions[i].Cancel?
  }

  lemma {:induction false} UncancelledLosesNothing(s: State, actions: seq<Action>)
    requires NeverCancels(actions)
    ensures Run(s, actions).lost == s.lost && Run(s, actions).cut == s.cut
    decreases |actions|
  {
    if actions != [] {
      assert !actions[0].Cancel?;
      assert forall i :: 0 <= i < |actions[1..]| ==> actions[1..][i] == actions[i + 1];
      UncancelledLosesNothing(Step(s, actions[0]), actions[1..]);
    }
  }

  predicate Quiescent(s: State) {
    forall i :: 0 <= i < |s.calls| ==> s.calls[i].Done?
  }

  /** At every point of every interleaving: each copy of a candidate is in exactly one
      place; nothing reaches the native side before a remote description was accepted;
      failed attempts leave the whole buffer in place; at most one call ever drains a
      non-empty buffer; and what it submits is, in order, a prefix of the early
      candidates. */
  lemma CandidatesAccounted(actions: seq<Action>, x: Candidate)
    ensures var r := Run(INIT, actions);
            && multiset(r.added)[x] == multiset(r.buffer)[x] + HeldCount(r.calls, x) + multiset(r.submitted)[x]
                + multiset(r.lost)[x]
            && (r.submitted != [] ==> r.successes > 0 && r.descriptionSet)
            && (!r.descriptionSet ==> r.buffer == r.added)
            && r.drains <= 1
            && r.early <= |r.added| && r.drained <= r.added[..r.early]
  {
    RunOrdered(actions);
    RunConserved(actions, x);
  }

  // ---- A success takes effect --------------------------------------------

  /** A call that succeeded and has not resumed yet. */
  function AppliedCounts(calls: seq<Call>): (ns: seq<nat>)
    ensures |ns| == |calls|
    ensures forall i :: 0 <= i < |calls| ==> ns[i] == if calls[i] == Applied(true) then 1 else 0
  {
    seq(|calls|, i requires 0 <= i < |calls| => if calls[i] == Applied(true) then 1 else 0)
  }

  function Unresumed(s: State): nat { Sum(AppliedCounts(s.calls)) }

  predicate On(s: State, i: nat, c: Call) { i < |s.calls| && s.calls[i] == c }

  /** A native success that will never take effect: its call was cancelled. */
  predicate Wastes(s: State, a: Action) {
    (a.Cancel? && On(s, a.call, Applied(true))) || (a.ExecutorDone? && a.ok && On(s, a.call, OrphanApplying))
  }

  /** A native success. */
  predicate Succeeds(s: State, a: Action) {
    a.ExecutorDone? && a.ok && (On(s, a.call, Applying) || On(s, a.call, OrphanApplying))
  }

  predicate TakesEffect(s: State, a: Action) { a.Resume? && On(s, a.call, Applied(true)) }

  function Tally(s: State, actions: seq<Action>, counts: (State, Action) -> bool): nat
    decreases |actions|
  {
    if actions == [] then 0
    else (if counts(s, actions[0]) then 1 else 0) + Tally(Step(s, actions[0]), actions[1..], counts)
  }

  lemma UnresumedUpdate(s: State, i: nat, c: Call)
    requires i < |s.calls|
    ensures Sum(AppliedCounts(s.calls[i := c])) ==
            Unresumed(s) - (if s.calls[i] == Applied(true) then 1 else 0) + (if c == Applied(true) then 1 else 0)
  {
    var n := if c == Applied(true) then 1 else 0;
    SumUpdate(AppliedCounts(s.calls), i, n);
    assert AppliedCounts(s.calls[i := c]) == AppliedCounts(s.calls)[i := n];
  }

  lemma UnresumedAppend(s: State, c: Call)
    requires c != Applied(true)
    ensures Sum(AppliedCounts(s.calls + [c])) == Unresumed(s)
  {
    SumAppend(AppliedCounts(s.calls), 0);
    assert AppliedCounts(s.calls + [c]) == AppliedCounts(s.calls) + [0];
  }

  predicate Settles(s: State, a: Action, s': State) {
    && Unresumed(s') + (if TakesEffect(s, a) then 1 else 0) + (if Wastes(s, a) then 1 else 0)
       == Unresumed(s) + (if Succeeds(s, a) then 1 else 0)
    && (s'.descriptionSet <==> s.descriptionSet || TakesEffect(s, a))
    && s'.successes == s.successes + (if Succeeds(s, a) then 1 else 0)
  }

  lemma ExecutorSettles(s: State, i: nat, ok: bool)
    requires i < |s.calls|
    ensures Settles(s, ExecutorDone(i, ok), StepExecutor(s, i, ok))
  {
    UnresumedUpdate(s, i, ExecutorMove(s.calls[i], ok).next);
  }

  lemma ResumeSettles(s: State, i: nat)
    requires i < |s.calls|
    ensures Settles(s, Resume(i), StepResume(s, i))
  {
    UnresumedUpdate(s, i, ResumeMove(s.calls[i], s.buffer).next);
  }

  lemma CancelSettles(s: State, i: nat, started: bool)
    requires i < |s.calls|
    ensures Settles(s, Cancel(i, started), StepCancel(s, i, started))
  {
    UnresumedUpdate(s, i, CancelMove(s.calls[i], started).next);
  }

  /** Each success waits for its call, takes effect there, or is wasted. */
  lemma StepSuccess(s: State, a: Action)
    ensures Settles(s, a, Step(s, a))
  {
    match a
    case SetRemoteDescription => UnresumedAppend(s, Applying);
    case AddRemoteCandidate(c) => UnresumedAppend(s, if s.descriptionSet then Adding(c) else Done);
    case ExecutorDone(i, ok) => if i < |s.calls| { ExecutorSettles(s, i, ok); }
    case Resume(i) => if i < |s.calls| { ResumeSettles(s, i); }
    case Cancel(i, started) => if i < |s.calls| { CancelSettles(s, i, started); }
  }

  lemma {:induction false} RunSuccess(s: State, actions: seq<Action>)
    ensures var r := Run(s, actions);
            && Unresumed(r) + Tally(s, actions, TakesEffect) + Tally(s, actions, Wastes)
               == Unresumed(s) + Tally(s, actions, Succeeds)
            && (r.descriptionSet <==> s.descriptionSet || Tally(s, actions, TakesEffect) > 0)
            && r.successes == s.successes + Tally(s, actions, Succeeds)
    decreases |actions|
  {
    if actions != [] {
      StepSuccess(s, actions[0]);
      RunSuccess(Step(s, actions[0]), actions[1..]);
    }
  }

  /** No cancellation hits a call whose remote description is being applied. */
  predicate SparesDescriptions(s: State, actions: seq<Action>)
    decreases |actions|
  {
    actions == []
    || (!CancelsDescription(s, actions[0]) && SparesDescriptions(Step(s, actions[0]), actions[1..]))
  }

  predicate CancelsDescription(s: State, a: Action) {
    a.Cancel? && a.call < |s.calls| && (s.calls[a.call].Applying? || s.calls[a.call].Applied?)
  }

  predicate NoOrphan(s: State) {
    forall i :: 0 <= i < |s.calls| ==> !s.calls[i].OrphanApplying?
  }

  lemma {:induction false} SparedWastesNothing(s: State, actions: seq<Action>)
    requires SparesDescriptions(s, actions) && NoOrphan(s)
    ensures Tally(s, actions, Wastes) == 0
    decreases |actions|
  {
    if actions != [] {
      SparedStep(s, actions[0]);
      SparedWastesNothing(Step(s, actions[0]), actions[1..]);
    }
  }

  lemma SparedStep(s: State, a: Action)
    requires NoOrphan(s) && !CancelsDescription(s, a)
    ensures NoOrphan(Step(s, a)) && !Wastes(s, a)
  {
  }

  lemma AtRestNothingWaits(s: State)
    requires Quiescent(s)
    ensures Unresumed(s) == 0
  {
    SumOfZeros(AppliedCounts(s.calls));
  }

  /** At rest a remote description is in effect exactly when more descriptions were accepted
      by the native side than had their calls cancelled; so, with no cancellation of a call
      that is applying one, exactly when one was accepted. */
  lemma DescriptionTakesEffectIff(actions: seq<Action>)
    requires Quiescent(Run(INIT, actions))
    ensures var r := Run(INIT, actions);
            && (r.descriptionSet <==> Tally(INIT, actions, Wastes) < Tally(INIT, actions, Succeeds))
            && (SparesDescriptions(INIT, actions) ==> (r.descriptionSet <==> Tally(INIT, actions, Succeeds) > 0))
  {
    RunSuccess(INIT, actions);
    AtRestNothingWaits(Run(INIT, actions));
    AtRestNothingWaits(INIT);
    if SparesDescriptions(INIT, actions) { SparedWastesNothing(INIT, actions); }
  }

  lemma {:induction false} UncancelledSpares(s: State, actions: seq<Action>)
    requires NeverCancels(actions)
    ensures SparesDescriptions(s, actions)
    decreases |actions|
  {
    if actions != [] {
      assert !actions[0].Cancel?;
      assert forall i :: 0 <= i < |actions[1..]| ==> actions[1..][i] == actions[i + 1];
      UncancelledSpares(Step(s, actions[0]), actions[1..]);
    }
  }

  // ---- Progress ----------------------------------------------------------

  /** The turns of a call that drains `n` candidates, whatever the native side answers. */
  function DrainTurns(i: nat, answers: seq<bool>): seq<Action> {
    if answers == [] then [] else [ExecutorDone(i, answers[0]), Resume(i)] + DrainTurns(i, answers[1..])
  }

  lemma {:induction false} DrainFinishes(s: State, i: nat, todo: seq<Candidate>, answers: seq<bool>)
    requires i < |s.calls| && s.calls[i] == NextDrain(todo) && |answers| == |todo|
    ensures var r := Run(s, DrainTurns(i, answers));
            && r.calls == s.calls[i := Done] && r.submitted == s.submitted + todo
            && r.buffer == s.buffer && r.descriptionSet == s.descriptionSet && r.lost == s.lost
    decreases |todo|
  {
    if todo == [] {
      assert s.calls[i := Done] == s.calls && s.submitted + [] == s.submitted;
    } else {
      var s1 := Step(s, ExecutorDone(i, answers[0]));
      var s2 := Step(s1, Resume(i));
      DrainsOne(s, i, todo, answers[0]);
      DrainFinishes(s2, i, todo[1..], answers[1..]);
      RunTwo(s, ExecutorDone(i, answers[0]), Resume(i), DrainTurns(i, answers[1..]));
      assert s.submitted + [todo[0]] + todo[1..] == s.submitted + todo;
    }
  }

  lemma DrainsOne(s: State, i: nat, todo: seq<Candidate>, ok: bool)
    requires i < |s.calls| && todo != [] && s.calls[i] == NextDrain(todo)
    ensures var s2 := Step(Step(s, ExecutorDone(i, ok)), Resume(i));
            && s2.calls == s.calls[i := NextDrain(todo[1..])] && s2.submitted == s.submitted + [todo[0]]
            && s2.buffer == s.buffer && s2.descriptionSet == s.descriptionSet && s2.lost == s.lost
  {
    var s1 := Step(s, ExecutorDone(i, ok));
    assert s1.calls == s.calls[i := DrainReady(todo[1..])];
    assert s1.submitted + [] == s1.submitted && s.lost + [] == s.lost;
  }

  lemma RunTwo(s: State, a: Action, b: Action, rest: seq<Action>)
    ensures Run(s, [a, b] + rest) == Run(Step(Step(s, a), b), rest)
  {
    assert ([a, b] + rest)[1..] == [b] + rest && ([b] + rest)[1..] == rest;
  }

  /** Once the native side accepts a description, the call's own turns set the flag, submit
      the whole buffer in order whatever the native side answers, and finish the call. */
  lemma AcceptedDescriptionDrains(s: State, i: nat, answers: seq<bool>)
    requires i < |s.calls| && s.calls[i].Applying? && |answers| == |s.buffer|
    ensures var r := Run(s, [ExecutorDone(i, true), Resume(i)] + DrainTurns(i, answers));
            && r.descriptionSet && r.buffer == [] && r.calls == s.calls[i := Done]
            && r.submitted == s.submitted + s.buffer && r.lost == s.lost
  {
    var s1 := Step(s, ExecutorDone(i, true));
    var s2 := Step(s1, Resume(i));
    assert s1.calls == s.calls[i := Applied(true)] && s1.buffer == s.buffer;
    assert s.submitted + [] == s.submitted && s.lost + [] == s.lost;
    assert s2.calls == s.calls[i := NextDrain(s.buffer)] && s2.submitted == s.submitted && s2.lost == s.lost;
    RunTwo(s, ExecutorDone(i, true), Resume(i), DrainTurns(i, answers));
    DrainFinishes(s2, i, s.buffer, answers);
  }

  /** A refused description changes nothing and finishes its call; a candidate added later
      is submitted by its own turns. */
  lemma OtherCallsFinish(s: State, i: nat, ok: bool)
    requires i < |s.calls|
    ensures var r := Run(s, [ExecutorDone(i, ok), Resume(i)] + []);
            && (s.calls[i].Applying? && !ok ==> r == s.(calls := s.calls[i := Done]))
            && (s.calls[i].Adding? ==>
                  r.calls == s.calls[i := Done] && r.submitted == s.submitted + [s.calls[i].c] && r.lost == s.lost)
  {
    RunTwo(s, ExecutorDone(i, ok), Resume(i), []);
    assert s.submitted + [] == s.submitted && s.lost + [] == s.lost && s.drained + [] == s.drained;
  }

  /** Cancelling a call takes back its executor job only before it has begun: a description
      begun may still be accepted, without effect, and a candidate begun is still submitted. */
  lemma CancelledJobRunsOnIff(s: State, i: nat, started: bool, ok: bool)
    requires i < |s.calls|
    ensures var r := Step(Step(s, Cancel(i, started)), ExecutorDone(i, ok));
            && (s.calls[i].Applying? ==>
                  && r.successes == s.successes + (if started && ok then 1 else 0)
                  && r.descriptionSet == s.descriptionSet && r.buffer == s.buffer && r.calls[i].Done?)
            && (s.calls[i].Adding? ==>
                  r.submitted == s.submitted + (if started then [s.calls[i].c] else []) && r.calls[i].Done?)
            && (s.calls[i].Draining? ==>
                  r.submitted == s.submitted + (if started then [s.calls[i].cur] else []) && r.calls[i].Done?)
  {
    var s1 := Step(s, Cancel(i, started));
    assert s1.submitted == s.submitted && s.submitted + [] == s.submitted;
  }

  /** A call moves on its own turns only. */
  lemma OthersLeaveCall(s: State, a: Action, i: nat)
    requires i < |s.calls| && !((a.ExecutorDone? || a.Resume? || a.Cancel?) && a.call == i)
    ensures i < |Step(s, a).calls| && Step(s, a).calls[i] == s.calls[i]
  {
  }

  // ---- Exactly once ------------------------------------------------------

  /** Once everything has come to rest after a success and nothing was cancelled, every
      candidate was submitted exactly as often as it was added, and the early ones in
      arrival order. */
  lemma CandidatesExactlyOnce(actions: seq<Action>)
    requires Quiescent(Run(INIT, actions)) && Tally(INIT, actions, Succeeds) > 0 && NeverCancels(actions)
    ensures var r := Run(INIT, actions);
            && multiset(r.submitted) == multiset(r.added)
            && r.early <= |r.added| && r.drained == r.added[..r.early]
  {
    var r := Run(INIT, actions);
    UncancelledSpares(INIT, actions);
    DescriptionTakesEffectIff(actions);
    RunOrdered(actions);
    UncancelledLosesNothing(INIT, actions);
    forall x ensures multiset(r.submitted)[x] == multiset(r.added)[x] {
      RunConserved(actions, x);
      NothingHeld(r.calls, x);
    }
  }

  // ---- Cancellation ------------------------------------------------------

  /** Cancelling this call forgets no candidate: whatever it still carries, the executor
      has already begun. */
  predicate Harmless(c: Call, started: bool) {
    match c
    case Draining(_, rest) => started && rest == []
    case DrainReady(rest) => rest == []
    case Adding(_) => started
    case _ => true
  }

  predicate CancelIsHarmless(s: State, a: Action) {
    a.Cancel? && a.call < |s.calls| ==> Harmless(s.calls[a.call], a.started)
  }

  /** Every cancellation on the way is harmless. */
  predicate CancelsHarmlessly(s: State, actions: seq<Action>)
    decreases |actions|
  {
    actions == []
    || (CancelIsHarmless(s, actions[0]) && CancelsHarmlessly(Step(s, actions[0]), actions[1..]))
  }

  lemma StepLoses(s: State, a: Action)
    ensures s.lost <= Step(s, a).lost
    ensures Step(s, a).lost == s.lost <==> CancelIsHarmless(s, a)
  {
    if a.Cancel? && a.call < |s.calls| && !Harmless(s.calls[a.call], a.started) {
      assert |Step(s, a).lost| > |s.lost|;
    }
  }

  lemma {:induction false} RunLosesIff(s: State, actions: seq<Action>)
    ensures s.lost <= Run(s, actions).lost
    ensures Run(s, actions).lost == s.lost <==> CancelsHarmlessly(s, actions)
    decreases |actions|
  {
    if actions != [] {
      StepLoses(s, actions[0]);
      RunLosesIff(Step(s, actions[0]), actions[1..]);
    }
  }

  /** With cancellations: at rest after more successes than were cancelled, every candidate
      was submitted exactly as often as it was added iff no cancellation hit a call that
      carried a candidate no executor job had begun. */
  lemma CandidatesExactlyOnceIff(actions: seq<Action>)
    requires Quiescent(Run(INIT, actions))
    requires Tally(INIT, actions, Wastes) < Tally(INIT, actions, Succeeds)
    ensures var r := Run(INIT, actions);
            multiset(r.submitted) == multiset(r.added) <==> CancelsHarmlessly(INIT, actions)
  {
    var r := Run(INIT, actions);
    DescriptionTakesEffectIff(actions);
    RunOrdered(actions);
    RunLosesIff(INIT, actions);
    forall x ensures multiset(r.submitted)[x] + multiset(r.lost)[x] == multiset(r.added)[x] {
      RunConserved(actions, x);
      NothingHeld(r.calls, x);
    }
    if r.lost != [] {
      assert r.lost[0] in multiset(r.lost);
      assert multiset(r.submitted)[r.lost[0]] < multiset(r.added)[r.lost[0]];
    }
  }
}
