/**
 * The concurrent two-tier classification pass. Up to four tasks are in flight; they interleave
 * at every model or network reply and share a budget of full-body fetches and a progress
 * counter. Replies are arbitrary.
 */
module ClassifyPass {
  import opened Prelude
  import opened Classifier

  const MAX_TIER2_FETCHES := 3
  const MAX_CONCURRENT := 4
  const MIN_CONFIDENCE := 0.5
  const AMBIGUITY_THRESHOLD := 0.25

  /** Where a task stands; `Dropped` is the early return of the label guard. */
  datatype Phase =
    | Waiting
    | Tier1
    | Fetching
    | Tier2
    | Saving(criterion: nat, confidence: real)
    | Completed
    | Dropped

  datatype Pass = Pass(labels: seq<string>, isInitial: bool, total: nat)

  datatype Saved = Saved(task: nat, criterion: nat, confidence: real)

  datatype State = State(
    tasks: seq<Phase>,
    budget: nat,
    fetched: set<nat>,
    ambiguous: set<nat>,
    chosen: map<nat, nat>,
    saved: seq<Saved>,
    progress: seq<nat>)

  /**
   * The replies that tasks wait for. A save is `stored` when its statement took effect, whatever it reported:
   * the report decides only a log line and a desktop notification.
   */
  datatype Step =
    | Start(task: nat)
    | Tier1Reply(task: nat, reply: Reply)
    | BodyReply(task: nat, hasBody: bool)
    | Tier2Reply(task: nat, reply: Reply)
    | SaveReply(task: nat, stored: bool)

  function Init(p: Pass): State {
    State(seq(p.total, i => Waiting), MAX_TIER2_FETCHES, {}, {}, map[], [], [0])
  }

  // ---------------------------------------------------------------- steps

  function CountFor(ph: Phase, running: bool): nat {
    if (if running then ph != Waiting && ph != Completed && ph != Dropped else ph == Completed) then 1 else 0
  }

  function Running(ts: seq<Phase>): nat {
    if ts == [] then 0 else Running(ts[..|ts| - 1]) + CountFor(ts[|ts| - 1], true)
  }

  function CompletedCount(ts: seq<Phase>): nat {
    if ts == [] then 0 else CompletedCount(ts[..|ts| - 1]) + CountFor(ts[|ts| - 1], false)
  }

  predicate At(s: State, i: nat, ph: Phase) {
    i < |s.tasks| && s.tasks[i] == ph
  }

  predicate Enabled(s: State, step: Step) {
    match step
    case Start(i) =>
      At(s, i, Waiting) && Running(s.tasks) < MAX_CONCURRENT && forall j | 0 <= j < i :: s.tasks[j] != Waiting
    case Tier1Reply(i, _) => At(s, i, Tier1)
    case BodyReply(i, _) => At(s, i, Fetching)
    case Tier2Reply(i, _) => At(s, i, Tier2)
    case SaveReply(i, _) => i < |s.tasks| && s.tasks[i].Saving?
  }

  function Move(s: State, i: nat, ph: Phase): State
    requires i < |s.tasks|
  {
    s.(tasks := s.tasks[i := ph])
  }

  /** Counting and reporting happen together, between two replies. */
  function Finish(s: State, i: nat): State
    requires i < |s.tasks|
  {
    Move(s, i, Completed).(progress := s.progress + [CompletedCount(s.tasks) + 1])
  }

  /** An accepted verdict passes the label guard or drops the task. */
  function Guard(p: Pass, s: State, i: nat, reply: Reply, v: Verdict): State
    requires i < |s.tasks|
  {
    match FirstExact(p.labels, v.criterionLabel)
    case None => Move(s, i, Dropped)
    case Some(k) =>
      var t := Move(s, i, Saving(k, v.confidence));
      match Chosen(reply, p.labels)
      case None => t
      case Some(c) => t.(chosen := t.chosen[i := c])
  }

  function Promote(s: State, i: nat): State
    requires i < |s.tasks|
  {
    var t := s.(ambiguous := s.ambiguous + {i});
    if t.budget > 0 then Move(t.(budget := t.budget - 1, fetched := t.fetched + {i}), i, Fetching) else Finish(t, i)
  }

  function Apply(p: Pass, s: State, step: Step): (after: State)
    requires Enabled(s, step)
    ensures |after.tasks| == |s.tasks|
  {
    match step
    case Start(i) => Move(s, i, Tier1)
    case Tier1Reply(i, reply) =>
      (match RunClassification(reply, p.labels)
       case Err(_) => Finish(s, i)
       case Ok(None) => Finish(s, i)
       case Ok(Some(v)) =>
         if v.confidence >= MIN_CONFIDENCE then Guard(p, s, i, reply, v)
         else if v.confidence >= AMBIGUITY_THRESHOLD && !p.isInitial then
           Promote(s, i)
         else Finish(s, i))
    case BodyReply(i, hasBody) => if hasBody then Move(s, i, Tier2) else Finish(s, i)
    case Tier2Reply(i, reply) =>
      (match RunClassification(reply, p.labels)
       case Err(_) => Finish(s, i)
       case Ok(None) => Finish(s, i)
       case Ok(Some(v)) => if v.confidence >= MIN_CONFIDENCE then Guard(p, s, i, reply, v) else Finish(s, i))
    case SaveReply(i, stored) =>
      var done := Finish(s, i);
      if stored then done.(saved := done.saved + [Saved(i, s.tasks[i].criterion, s.tasks[i].confidence)]) else done
  }

  /** Steps that are not enabled do not happen. */
  function Run(p: Pass, s: State, steps: seq<Step>): State
    decreases |steps|
  {
    if steps == [] then s
    else Run(p, if Enabled(s, steps[0]) then Apply(p, s, steps[0]) else s, steps[1..])
  }

  // ---------------------------------------------------------------- the invariant

  ghost predicate Accepted(p: Pass, s: State, task: nat, criterion: nat, confidence: real) {
    && criterion < |p.labels|
    && MIN_CONFIDENCE <= confidence <= 1.0
    && task in s.chosen && s.chosen[task] == criterion
  }

  ghost predicate TaskOk(p: Pass, s: State, i: nat)
    requires i < |s.tasks|
  {
    match s.tasks[i]
    case Waiting => i !in s.ambiguous && i !in s.chosen
    case Tier1 => i !in s.ambiguous && i !in s.chosen
    case Saving(k, c) => Accepted(p, s, i, k, c)
    case Dropped => false
    case Completed => true
    case _ => i in s.fetched && i !in s.chosen
  }

  ghost predicate Inv(p: Pass, s: State) {
    && |s.tasks| == p.total
    && s.budget + |s.fetched| == MAX_TIER2_FETCHES
    && |s.fetched| == Min(MAX_TIER2_FETCHES, |s.ambiguous|)
    && s.fetched <= s.ambiguous
    && (p.isInitial ==> s.ambiguous == {})
    && Running(s.tasks) <= MAX_CONCURRENT
    && |s.progress| == CompletedCount(s.tasks) + 1
    && (forall k | 0 <= k < |s.progress| :: s.progress[k] == k)
    && (forall i | 0 <= i < |s.tasks| :: TaskOk(p, s, i))
    && (forall k | 0 <= k < |s.saved| :: Accepted(p, s, s.saved[k].task, s.saved[k].criterion, s.saved[k].confidence)
                                       && At(s, s.saved[k].task, Completed))
    && (forall k, l | 0 <= k < l < |s.saved| :: s.saved[k].task != s.saved[l].task)
  }

  lemma {:induction false} CountsAfterMove(ts: seq<Phase>, i: nat, ph: Phase)
    requires i < |ts|
    ensures Running(ts[i := ph]) == Running(ts) - CountFor(ts[i], true) + CountFor(ph, true)
    ensures CompletedCount(ts[i := ph]) == CompletedCount(ts) - CountFor(ts[i], false) + CountFor(ph, false)
  {
    var init := ts[..|ts| - 1];
    if i == |ts| - 1 {
      assert ts[i := ph][..i] == init;
    } else {
      CountsAfterMove(init, i, ph);
      assert ts[i := ph][..|ts| - 1] == init[i := ph];
    }
  }

  lemma {:induction false} NothingStarted(n: nat)
    ensures var ts := seq(n, i => Waiting); Running(ts) == 0 && CompletedCount(ts) == 0
  {
    if n > 0 {
      NothingStarted(n - 1);
      assert (seq(n, i => Waiting))[..n - 1] == seq(n - 1, i => Waiting);
    }
  }

  lemma InitOk(p: Pass)
    ensures Inv(p, Init(p))
  {
    NothingStarted(p.total);
  }

  /** Moving a task on, without reporting. */
  lemma MoveKeepsInv(p: Pass, s: State, i: nat, ph: Phase)
    requires Inv(p, s) && i < |s.tasks| && s.tasks[i] != Completed && ph != Completed
    requires TaskOk(p, Move(s, i, ph), i)
    requires Running(s.tasks) - CountFor(s.tasks[i], true) + CountFor(ph, true) <= MAX_CONCURRENT
    ensures Inv(p, Move(s, i, ph))
  {
    CountsAfterMove(s.tasks, i, ph);
    forall j | 0 <= j < |s.tasks| && j != i ensures TaskOk(p, Move(s, i, ph), j) {
      assert TaskOk(p, s, j);
    }
  }

  lemma FinishKeepsInv(p: Pass, s: State, i: nat)
    requires Inv(p, s) && i < |s.tasks| && CountFor(s.tasks[i], true) == 1
    ensures Inv(p, Finish(s, i))
  {
    CountsAfterMove(s.tasks, i, Completed);
    forall j | 0 <= j < |s.tasks| && j != i ensures TaskOk(p, Finish(s, i), j) {
      assert TaskOk(p, s, j);
    }
  }

  /** An accepted verdict always passes the guard, and on the criterion the classifier chose. */
  lemma GuardKeepsInv(p: Pass, s: State, i: nat, reply: Reply)
    requires Inv(p, s) && i < |s.tasks| && (s.tasks[i].Tier1? || s.tasks[i].Tier2?)
    requires RunClassification(reply, p.labels).Ok? && RunClassification(reply, p.labels).value.Some?
    requires RunClassification(reply, p.labels).value.value.confidence >= MIN_CONFIDENCE
    ensures Inv(p, Guard(p, s, i, reply, RunClassification(reply, p.labels).value.value))
  {
    var v := RunClassification(reply, p.labels).value.value;
    VerdictIsSound(reply, p.labels);
    hide RunClassification, Chosen, FirstExact;
    var k := Chosen(reply, p.labels).value;
    var marked := s.(chosen := s.chosen[i := k]);
    assert TaskOk(p, s, i);
    var after := Move(marked, i, Saving(k, v.confidence));
    CountsAfterMove(s.tasks, i, Saving(k, v.confidence));
    forall j | 0 <= j < |s.tasks| ensures TaskOk(p, after, j) {
      assert TaskOk(p, s, j);
    }
    assert after == Guard(p, s, i, reply, v);
  }

  /** An ambiguous email takes one unit of the budget, or finishes when there is none. */
  lemma PromoteKeepsInv(p: Pass, s: State, i: nat)
    requires Inv(p, s) && At(s, i, Tier1) && !p.isInitial
    ensures Inv(p, Promote(s, i))
  {
    assert TaskOk(p, s, i);
    SubsetSize(s.fetched, s.ambiguous);
    var after := Promote(s, i);
    if s.budget > 0 {
      CountsAfterMove(s.tasks, i, Fetching);
      assert |after.fetched| == |s.fetched| + 1;
    } else {
      CountsAfterMove(s.tasks, i, Completed);
    }
    assert |after.ambiguous| == |s.ambiguous| + 1;
    forall j | 0 <= j < |s.tasks| ensures TaskOk(p, after, j) {
      assert TaskOk(p, s, j);
    }
  }

  lemma SaveKeepsInv(p: Pass, s: State, i: nat, stored: bool)
    requires Inv(p, s) && Enabled(s, SaveReply(i, stored))
    ensures Inv(p, Apply(p, s, SaveReply(i, stored)))
  {
    assert TaskOk(p, s, i);
    FinishKeepsInv(p, s, i);
    var done, after := Finish(s, i), Apply(p, s, SaveReply(i, stored));
    forall j | 0 <= j < |s.tasks| ensures TaskOk(p, after, j) {
      assert TaskOk(p, done, j);
    }
  }

  lemma StartKeepsInv(p: Pass, s: State, i: nat)
    requires Inv(p, s) && Enabled(s, Start(i))
    ensures Inv(p, Move(s, i, Tier1))
  {
    assert TaskOk(p, s, i);
    MoveKeepsInv(p, s, i, Tier1);
  }

  lemma Tier1KeepsInv(p: Pass, s: State, i: nat, reply: Reply)
    requires Inv(p, s) && At(s, i, Tier1)
    ensures Inv(p, Apply(p, s, Tier1Reply(i, reply)))
  {
    hide Inv, RunClassification, Guard, Promote, Finish;
    var r := RunClassification(reply, p.labels);
    if r.Ok? && r.value.Some? && r.value.value.confidence >= MIN_CONFIDENCE {
      GuardKeepsInv(p, s, i, reply);
    } else {
      FinishKeepsInv(p, s, i);
      if !p.isInitial {
        PromoteKeepsInv(p, s, i);
      }
    }
  }

  lemma BodyKeepsInv(p: Pass, s: State, i: nat, hasBody: bool)
    requires Inv(p, s) && At(s, i, Fetching)
    ensures Inv(p, Apply(p, s, BodyReply(i, hasBody)))
  {
    assert TaskOk(p, s, i);
    if hasBody {
      MoveKeepsInv(p, s, i, Tier2);
    } else {
      FinishKeepsInv(p, s, i);
    }
  }

  lemma Tier2KeepsInv(p: Pass, s: State, i: nat, reply: Reply)
    requires Inv(p, s) && At(s, i, Tier2)
    ensures Inv(p, Apply(p, s, Tier2Reply(i, reply)))
  {
    hide Inv, RunClassification, Guard, Finish;
    var r := RunClassification(reply, p.labels);
    if r.Ok? && r.value.Some? && r.value.value.confidence >= MIN_CONFIDENCE {
      GuardKeepsInv(p, s, i, reply);
    } else {
      FinishKeepsInv(p, s, i);
    }
  }

  lemma StepKeepsInv(p: Pass, s: State, step: Step)
    requires Inv(p, s) && Enabled(s, step)
    ensures Inv(p, Apply(p, s, step))
  {
    hide Inv;
    match step
    case Start(i) => StartKeepsInv(p, s, i);
    case Tier1Reply(i, reply) => Tier1KeepsInv(p, s, i, reply);
    case BodyReply(i, hasBody) => BodyKeepsInv(p, s, i, hasBody);
    case Tier2Reply(i, reply) => Tier2KeepsInv(p, s, i, reply);
    case SaveReply(i, stored) => SaveKeepsInv(p, s, i, stored);
  }

  lemma {:induction false} RunKeepsInv(p: Pass, s: State, steps: seq<Step>)
    requires Inv(p, s)
    ensures Inv(p, Run(p, s, steps))
    decreases |steps|
  {
    if steps != [] {
      if Enabled(s, steps[0]) {
        StepKeepsInv(p, s, steps[0]);
      }
      RunKeepsInv(p, if Enabled(s, steps[0]) then Apply(p, s, steps[0]) else s, steps[1..]);
    }
  }

  // ---------------------------------------------------------------- what every run guarantees

  /**
   * Under every interleaving: budget left plus bodies fetched is three, exactly
   * min(3, ambiguous so far) bodies are fetched, only for ambiguous emails and never on an
   * initial sync, and at most four tasks are in flight.
   */
  lemma BudgetIsRespected(p: Pass, steps: seq<Step>)
    ensures var s := Run(p, Init(p), steps);
            && s.budget + |s.fetched| == 3
            && |s.fetched| == Min(3, |s.ambiguous|)
            && s.fetched <= s.ambiguous
            && (p.isInitial ==> s.fetched == {})
            && Running(s.tasks) <= 4
  {
    InitOk(p);
    RunKeepsInv(p, Init(p), steps);
  }

  /**
   * Which emails are ambiguous: a reply marks its task exactly when its Tier 1 confidence lies in
   * [0.25, 0.5) on an incremental pass; nothing else changes the set.
   */
  lemma AmbiguousMeansBetweenThresholds(p: Pass, s: State, step: Step, i: nat)
    requires Inv(p, s) && Enabled(s, step) && i !in s.ambiguous
    ensures i in Apply(p, s, step).ambiguous
       <==> && step.Tier1Reply? && step.task == i && !p.isInitial
            && RunClassification(step.reply, p.labels).Ok? && RunClassification(step.reply, p.labels).value.Some?
            && 0.25 <= RunClassification(step.reply, p.labels).value.value.confidence < 0.5
    ensures s.ambiguous <= Apply(p, s, step).ambiguous
  {
  }

  /**
   * Every saved match has a confidence in [0.5, 1] and names the very criterion the classifier
   * chose for that task; no task is saved twice, and none is ever dropped by the guard.
   */
  lemma SavedMatchesAreSound(p: Pass, steps: seq<Step>)
    ensures var s := Run(p, Init(p), steps);
            && (forall m | m in s.saved ::
                  && 0.5 <= m.confidence <= 1.0
                  && m.task < p.total && m.criterion < |p.labels|
                  && m.task in s.chosen && s.chosen[m.task] == m.criterion)
            && (forall k, l | 0 <= k < l < |s.saved| :: s.saved[k].task != s.saved[l].task)
            && (forall i | 0 <= i < |s.tasks| :: s.tasks[i] != Dropped)
  {
    InitOk(p);
    RunKeepsInv(p, Init(p), steps);
    var s := Run(p, Init(p), steps);
    forall i | 0 <= i < |s.tasks| ensures s.tasks[i] != Dropped {
      assert TaskOk(p, s, i);
    }
  }

  /** Progress counts 0, 1, 2, ... without gaps; when nothing is left to do it has reached the total. */
  lemma ProgressIsGapless(p: Pass, steps: seq<Step>)
    ensures var s := Run(p, Init(p), steps);
            && (forall k | 0 <= k < |s.progress| :: s.progress[k] == k)
            && |s.progress| == CompletedCount(s.tasks) + 1
            && ((forall step :: !Enabled(s, step)) ==> |s.progress| == p.total + 1 && Running(s.tasks) == 0)
  {
    InitOk(p);
    RunKeepsInv(p, Init(p), steps);
    var s := Run(p, Init(p), steps);
    if forall step :: !Enabled(s, step) {
      forall i | 0 <= i < |s.tasks| ensures s.tasks[i] == Completed {
        if s.tasks[i] != Completed {
          var step := SomeStepEnabled(p, s, i);
        }
      }
      AllCompleted(s.tasks);
    }
  }

  lemma {:induction false} AllCompleted(ts: seq<Phase>)
    requires forall i | 0 <= i < |ts| :: ts[i] == Completed
    ensures CompletedCount(ts) == |ts| && Running(ts) == 0
  {
    if ts != [] {
      AllCompleted(ts[..|ts| - 1]);
    }
  }

  lemma {:induction false} FirstWaiting(ts: seq<Phase>, i: nat) returns (j: nat)
    requires i < |ts| && ts[i] == Waiting
    ensures j < |ts| && ts[j] == Waiting && forall k | 0 <= k < j :: ts[k] != Waiting
    decreases i
  {
    j := i;
    if k :| 0 <= k < i && ts[k] == Waiting {
      j := FirstWaiting(ts, k);
    }
  }

  lemma {:induction false} SomeRunning(ts: seq<Phase>) returns (i: nat)
    requires Running(ts) > 0
    ensures i < |ts| && CountFor(ts[i], true) == 1
  {
    if CountFor(ts[|ts| - 1], true) == 1 {
      i := |ts| - 1;
    } else {
      i := SomeRunning(ts[..|ts| - 1]);
    }
  }

  lemma RunningStepEnabled(s: State, i: nat) returns (step: Step)
    requires i < |s.tasks| && CountFor(s.tasks[i], true) == 1
    ensures Enabled(s, step)
  {
    match s.tasks[i]
    case Tier1 => step := Tier1Reply(i, Broken);
    case Fetching => step := BodyReply(i, false);
    case Tier2 => step := Tier2Reply(i, Broken);
    case Saving(_, _) => step := SaveReply(i, false);
  }

  /** The pass is never stuck before every task has completed. */
  lemma SomeStepEnabled(p: Pass, s: State, i: nat) returns (step: Step)
    requires Inv(p, s) && i < |s.tasks| && s.tasks[i] != Completed
    ensures Enabled(s, step)
  {
    assert TaskOk(p, s, i);
    if CountFor(s.tasks[i], true) == 1 {
      step := RunningStepEnabled(s, i);
    } else if Running(s.tasks) < MAX_CONCURRENT {
      var j := FirstWaiting(s.tasks, i);
      step := Start(j);
    } else {
      var j := SomeRunning(s.tasks);
      step := RunningStepEnabled(s, j);
    }
  }

  // ---------------------------------------------------------------- what became of each email

  /** The steps of a run that happened, in order. */
  function Taken(p: Pass, steps: seq<Step>): seq<Step> {
    if steps == [] then []
    else
      var init, last := steps[..|steps| - 1], steps[|steps| - 1];
      Taken(p, init) + if Enabled(Run(p, Init(p), init), last) then [last] else []
  }

  /** Those of one task. */
  function OfTask(steps: seq<Step>, i: nat): seq<Step> {
    if steps == [] then []
    else OfTask(steps[..|steps| - 1], i) + if steps[|steps| - 1].task == i then [steps[|steps| - 1]] else []
  }

  /** What task `i` did in a run. */
  function History(p: Pass, steps: seq<Step>, i: nat): seq<Step> {
    OfTask(Taken(p, steps), i)
  }

  predicate HasVerdict(p: Pass, reply: Reply) {
    RunClassification(reply, p.labels).Ok? && RunClassification(reply, p.labels).value.Some?
  }

  function ConfidenceOf(p: Pass, reply: Reply): real
    requires HasVerdict(p, reply)
  {
    RunClassification(reply, p.labels).value.value.confidence
  }

  /** The reply is a match for criterion `k` with confidence `c`, at least one half. */
  predicate Accepts(p: Pass, reply: Reply, k: nat, c: real) {
    HasVerdict(p, reply) && Chosen(reply, p.labels) == Some(k) && ConfidenceOf(p, reply) == c && c >= 0.5
  }

  predicate Convinces(p: Pass, reply: Reply) {
    HasVerdict(p, reply) && ConfidenceOf(p, reply) >= 0.5
  }

  /** The reply is a match with a confidence in [0.25, 0.5), and the pass is incremental. */
  predicate LeavesDoubt(p: Pass, reply: Reply) {
    !p.isInitial && HasVerdict(p, reply) && 0.25 <= ConfidenceOf(p, reply) < 0.5
  }

  predicate IsReply(step: Step) {
    step.Tier1Reply? || step.Tier2Reply?
  }

  /** The task asked about the header. */
  predicate AskedOnce(h: seq<Step>, i: nat) {
    |h| >= 2 && h[0] == Start(i) && h[1].Tier1Reply? && h[1].task == i
  }

  /** The header left a doubt, the body was fetched, and the task asked again. */
  predicate AskedTwice(p: Pass, h: seq<Step>, i: nat, fetched: bool) {
    && AskedOnce(h, i) && LeavesDoubt(p, h[1].reply) && fetched
    && |h| >= 4 && h[2] == BodyReply(i, true) && h[3].Tier2Reply? && h[3].task == i
  }

  /** The task's last step was the reply that settles it. */
  predicate Settles(p: Pass, h: seq<Step>, i: nat, fetched: bool) {
    (|h| == 2 && AskedOnce(h, i)) || (|h| == 4 && AskedTwice(p, h, i, fetched))
  }

  /** The task ended by saving the match of the reply before. */
  predicate EndsSaving(p: Pass, h: seq<Step>, i: nat, fetched: bool, stored: bool) {
    && h != [] && h[|h| - 1] == SaveReply(i, stored) && Settles(p, h[..|h| - 1], i, fetched)
    && IsReply(h[|h| - 2]) && Convinces(p, h[|h| - 2].reply)
  }

  /** The task ended without a match: neither reply convinces, or a doubt could not be followed up. */
  predicate EndsEmpty(p: Pass, h: seq<Step>, i: nat, fetched: bool) {
    || (|h| == 2 && AskedOnce(h, i) && !Convinces(p, h[1].reply) && !(LeavesDoubt(p, h[1].reply) && fetched))
    || (|h| == 3 && AskedOnce(h, i) && LeavesDoubt(p, h[1].reply) && fetched && h[2] == BodyReply(i, false))
    || (|h| == 4 && AskedTwice(p, h, i, fetched) && !Convinces(p, h[3].reply))
  }

  /** What a task has done when it stands at `ph`. */
  predicate Trace(p: Pass, h: seq<Step>, i: nat, fetched: bool, ph: Phase) {
    match ph
    case Waiting => h == []
    case Tier1 => h == [Start(i)]
    case Fetching => |h| == 2 && AskedOnce(h, i) && LeavesDoubt(p, h[1].reply) && fetched
    case Tier2 => |h| == 3 && AskedOnce(h, i) && LeavesDoubt(p, h[1].reply) && fetched && h[2] == BodyReply(i, true)
    case Saving(k, c) => Settles(p, h, i, fetched) && IsReply(h[|h| - 1]) && Accepts(p, h[|h| - 1].reply, k, c)
    case Completed =>
      EndsEmpty(p, h, i, fetched) || EndsSaving(p, h, i, fetched, true) || EndsSaving(p, h, i, fetched, false)
    case Dropped => false
  }

  /** The match a task with this history has stored. */
  predicate Stored(p: Pass, h: seq<Step>, i: nat, fetched: bool, k: nat, c: real) {
    EndsSaving(p, h, i, fetched, true) && Accepts(p, h[|h| - 2].reply, k, c)
  }

  ghost predicate Follows(p: Pass, s: State, h: seq<Step>, i: nat)
    requires i < |s.tasks|
  {
    && Trace(p, h, i, i in s.fetched, s.tasks[i])
    && forall k, c :: Saved(i, k, c) in s.saved <==> Stored(p, h, i, i in s.fetched, k, c)
  }

  /** A step of another task changes nothing for this one. */
  lemma OthersStep(p: Pass, s: State, step: Step, h: seq<Step>, i: nat)
    requires Inv(p, s) && Enabled(s, step) && i < |s.tasks| && Follows(p, s, h, i) && step.task != i
    ensures Follows(p, Apply(p, s, step), h, i)
  {
    OthersUntouched(p, s, step, i);
    hide Inv, Trace, Stored, Apply, Enabled;
  }

  lemma OthersUntouched(p: Pass, s: State, step: Step, i: nat)
    requires Enabled(s, step) && i < |s.tasks| && step.task != i
    ensures var after := Apply(p, s, step);
            && |after.tasks| == |s.tasks| && after.tasks[i] == s.tasks[i] && (i in after.fetched <==> i in s.fetched)
            && forall k, c :: Saved(i, k, c) in after.saved <==> Saved(i, k, c) in s.saved
  {
    hide RunClassification, FirstExact, Chosen;
  }

  /** A step that moves a task on without storing anything. */
  lemma MovesOn(p: Pass, s: State, after: State, h: seq<Step>, step: Step, i: nat)
    requires i < |s.tasks| && i < |after.tasks| && Follows(p, s, h, i) && s.tasks[i] != Completed
    requires after.saved == s.saved && Trace(p, h + [step], i, i in after.fetched, after.tasks[i])
    requires !step.SaveReply?
    ensures Follows(p, after, h + [step], i)
  {
    forall k, c ensures !Stored(p, h, i, i in s.fetched, k, c) && !Stored(p, h + [step], i, i in after.fetched, k, c) {
    }
  }

  lemma GuardFollows(p: Pass, s: State, h: seq<Step>, step: Step, i: nat)
    requires Inv(p, s) && Enabled(s, step) && IsReply(step) && step.task == i && Follows(p, s, h, i)
    requires Convinces(p, step.reply)
    ensures Follows(p, Apply(p, s, step), h + [step], i)
  {
    var reply, h', after := step.reply, h + [step], Apply(p, s, step);
    VerdictIsSound(reply, p.labels);
    hide RunClassification, Inv, FirstExact, Chosen;
    assert h'[..|h|] == h && h'[|h|] == step;
    MovesOn(p, s, after, h, step, i);
  }

  lemma Tier1Follows(p: Pass, s: State, h: seq<Step>, reply: Reply, i: nat)
    requires Inv(p, s) && Enabled(s, Tier1Reply(i, reply)) && Follows(p, s, h, i) && !Convinces(p, reply)
    ensures Follows(p, Apply(p, s, Tier1Reply(i, reply)), h + [Tier1Reply(i, reply)], i)
  {
    var h', after := h + [Tier1Reply(i, reply)], Apply(p, s, Tier1Reply(i, reply));
    assert TaskOk(p, s, i);
    hide RunClassification, Inv;
    assert h'[0] == Start(i) && h'[1] == Tier1Reply(i, reply);
    MovesOn(p, s, after, h, Tier1Reply(i, reply), i);
  }

  lemma StartFollows(p: Pass, s: State, h: seq<Step>, i: nat)
    requires Inv(p, s) && Enabled(s, Start(i)) && Follows(p, s, h, i)
    ensures Follows(p, Apply(p, s, Start(i)), h + [Start(i)], i)
  {
    MovesOn(p, s, Apply(p, s, Start(i)), h, Start(i), i);
  }

  lemma BodyFollows(p: Pass, s: State, h: seq<Step>, hasBody: bool, i: nat)
    requires Inv(p, s) && Enabled(s, BodyReply(i, hasBody)) && Follows(p, s, h, i)
    ensures Follows(p, Apply(p, s, BodyReply(i, hasBody)), h + [BodyReply(i, hasBody)], i)
  {
    hide RunClassification, Inv;
    var h' := h + [BodyReply(i, hasBody)];
    assert h'[0] == h[0] && h'[1] == h[1];
    MovesOn(p, s, Apply(p, s, BodyReply(i, hasBody)), h, BodyReply(i, hasBody), i);
  }

  lemma Tier2Follows(p: Pass, s: State, h: seq<Step>, reply: Reply, i: nat)
    requires Inv(p, s) && Enabled(s, Tier2Reply(i, reply)) && Follows(p, s, h, i) && !Convinces(p, reply)
    ensures Follows(p, Apply(p, s, Tier2Reply(i, reply)), h + [Tier2Reply(i, reply)], i)
  {
    hide RunClassification, Inv;
    var h' := h + [Tier2Reply(i, reply)];
    assert h'[0] == h[0] && h'[1] == h[1] && h'[2] == h[2];
    MovesOn(p, s, Apply(p, s, Tier2Reply(i, reply)), h, Tier2Reply(i, reply), i);
  }

  lemma SaveFollows(p: Pass, s: State, h: seq<Step>, stored: bool, i: nat)
    requires Inv(p, s) && Enabled(s, SaveReply(i, stored)) && Follows(p, s, h, i)
    ensures Follows(p, Apply(p, s, SaveReply(i, stored)), h + [SaveReply(i, stored)], i)
  {
    var h', after := h + [SaveReply(i, stored)], Apply(p, s, SaveReply(i, stored));
    hide RunClassification, Inv;
    assert h'[..|h|] == h && h'[|h|] == SaveReply(i, stored);
    var (k, c) := (s.tasks[i].criterion, s.tasks[i].confidence);
    forall k', c' ensures Saved(i, k', c') in after.saved <==> Stored(p, h', i, i in after.fetched, k', c') {
      assert !Stored(p, h, i, i in s.fetched, k', c');
      assert Saved(i, k', c') !in s.saved;
      assert Saved(i, k', c') in after.saved <==> stored && k' == k && c' == c;
    }
  }

  /** A step is added to the history of its own task. */
  lemma StepFollows(p: Pass, s: State, step: Step, h: seq<Step>, i: nat)
    requires Inv(p, s) && Enabled(s, step) && i < |s.tasks| && Follows(p, s, h, i)
    ensures Follows(p, Apply(p, s, step), if step.task == i then h + [step] else h, i)
  {
    if step.task != i {
      OthersStep(p, s, step, h, i);
    } else if IsReply(step) && Convinces(p, step.reply) {
      GuardFollows(p, s, h, step, i);
    } else {
      hide Inv, Follows, Convinces;
      match step
      case Start(_) => StartFollows(p, s, h, i);
      case Tier1Reply(_, reply) => Tier1Follows(p, s, h, reply, i);
      case BodyReply(_, hasBody) => BodyFollows(p, s, h, hasBody, i);
      case Tier2Reply(_, reply) => Tier2Follows(p, s, h, reply, i);
      case SaveReply(_, stored) => SaveFollows(p, s, h, stored, i);
    }
  }

  lemma {:induction false} RunPush(p: Pass, s: State, steps: seq<Step>)
    requires steps != []
    ensures var mid, last := Run(p, s, steps[..|steps| - 1]), steps[|steps| - 1];
            Run(p, s, steps) == if Enabled(mid, last) then Apply(p, mid, last) else mid
    decreases |steps|
  {
    if |steps| > 1 {
      assert steps[1..][..|steps| - 2] == steps[..|steps| - 1][1..];
      RunPush(p, if Enabled(s, steps[0]) then Apply(p, s, steps[0]) else s, steps[1..]);
    } else {
      assert steps[..0] == [] && steps[1..] == [];
    }
  }

  lemma TasksStay(p: Pass, steps: seq<Step>)
    ensures |Run(p, Init(p), steps).tasks| == p.total && Inv(p, Run(p, Init(p), steps))
  {
    InitOk(p);
    RunKeepsInv(p, Init(p), steps);
  }

  /** Under every interleaving each task stands where its own steps have brought it, with the matches they stored. */
  lemma {:induction false} TaskFollowsItsSteps(p: Pass, steps: seq<Step>, i: nat)
    requires i < p.total
    ensures |Run(p, Init(p), steps).tasks| == p.total
    ensures Follows(p, Run(p, Init(p), steps), History(p, steps, i), i)
  {
    TasksStay(p, steps);
    if steps != [] {
      var init, last := steps[..|steps| - 1], steps[|steps| - 1];
      var mid, h := Run(p, Init(p), init), History(p, init, i);
      TaskFollowsItsSteps(p, init, i);
      TasksStay(p, init);
      RunPush(p, Init(p), steps);
      if Enabled(mid, last) {
        StepFollows(p, mid, last, h, i);
        OfTaskPush(Taken(p, init), last, i);
      }
      assert Taken(p, init) + [] == Taken(p, init);
      hide Run, Inv, Follows, Enabled, Apply;
    } else {
      assert Taken(p, steps) == [] && History(p, steps, i) == [];
    }
  }

  lemma OfTaskPush(taken: seq<Step>, step: Step, i: nat)
    ensures OfTask(taken + [step], i) == if step.task == i then OfTask(taken, i) + [step] else OfTask(taken, i)
  {
    assert (taken + [step])[..|taken|] == taken;
  }

  /** Some reply accepted criterion `k` with confidence `c`, and a save after it took effect. */
  predicate AcceptedThenSaved(p: Pass, h: seq<Step>, i: nat, k: nat, c: real) {
    exists n, m | 0 <= n < m < |h| :: IsReply(h[n]) && Accepts(p, h[n].reply, k, c) && h[m] == SaveReply(i, true)
  }

  predicate AcceptedAndStored(p: Pass, steps: seq<Step>, i: nat, k: nat, c: real) {
    i < p.total && AcceptedThenSaved(p, History(p, steps, i), i, k, c)
  }

  /** A task that stored a match was done after its save, which followed the one reply that convinced it. */
  lemma StoredIff(p: Pass, h: seq<Step>, i: nat, fetched: bool, ph: Phase, k: nat, c: real)
    requires Trace(p, h, i, fetched, ph)
    ensures Stored(p, h, i, fetched, k, c) <==> AcceptedThenSaved(p, h, i, k, c)
  {
    hide HasVerdict;
    if Stored(p, h, i, fetched, k, c) {
      assert IsReply(h[|h| - 2]) && h[|h| - 1] == SaveReply(i, true);
    }
    if n, m :| 0 <= n < m < |h| && IsReply(h[n]) && Accepts(p, h[n].reply, k, c) && h[m] == SaveReply(i, true) {
      assert ph.Completed? && m == |h| - 1;
      assert n == |h| - 2;
    }
  }

  /**
   * Exactly which matches a run stores: criterion `k` with confidence `c` for email `i` if and only if a reply to
   * task `i` accepted them and the task's save took effect afterwards.
   */
  lemma SavedIff(p: Pass, steps: seq<Step>, i: nat, k: nat, c: real)
    ensures Saved(i, k, c) in Run(p, Init(p), steps).saved <==> AcceptedAndStored(p, steps, i, k, c)
  {
    SavedMatchesAreSound(p, steps);
    if i < p.total {
      TaskFollowsItsSteps(p, steps, i);
      var h, s := History(p, steps, i), Run(p, Init(p), steps);
      StoredIff(p, h, i, i in s.fetched, s.tasks[i], k, c);
      hide History, Run, Trace, Stored, AcceptedThenSaved;
    }
  }

  ghost predicate NothingLeft(s: State) {
    forall step :: !Enabled(s, step)
  }

  /**
   * When nothing is left to do, every email was asked about; a doubt whose body was fetched and found was asked
   * about again; and every reply that convinces was followed by a save.
   */
  lemma EveryEmailIsSettled(p: Pass, steps: seq<Step>, i: nat)
    requires NothingLeft(Run(p, Init(p), steps)) && i < p.total
    ensures var h, fetched := History(p, steps, i), i in Run(p, Init(p), steps).fetched;
            && |h| >= 2 && h[0] == Start(i) && h[1].Tier1Reply?
            && (LeavesDoubt(p, h[1].reply) && fetched ==> |h| >= 3 && h[2].BodyReply?)
            && (LeavesDoubt(p, h[1].reply) && fetched && h[2].hasBody ==> |h| >= 4 && h[3].Tier2Reply?)
            && (forall n | 0 <= n < |h| && IsReply(h[n]) && Convinces(p, h[n].reply) ::
                  n + 1 < |h| && h[n + 1].SaveReply? && h[n + 1].task == i)
  {
    TasksStay(p, steps);
    TaskFollowsItsSteps(p, steps, i);
    var s := Run(p, Init(p), steps);
    if s.tasks[i] != Completed {
      var step := SomeStepEnabled(p, s, i);
    }
    hide Run, History, HasVerdict, Inv;
  }

  /** In particular, when every save took effect, exactly the accepted matches are stored. */
  lemma FinishedPassStoresWhatWasAccepted(p: Pass, steps: seq<Step>, i: nat, k: nat, c: real)
    requires NothingLeft(Run(p, Init(p), steps)) && i < p.total
    requires forall n | 0 <= n < |History(p, steps, i)| :: History(p, steps, i)[n] != SaveReply(i, false)
    ensures Saved(i, k, c) in Run(p, Init(p), steps).saved
       <==> exists n | 0 <= n < |History(p, steps, i)| ::
              IsReply(History(p, steps, i)[n]) && Accepts(p, History(p, steps, i)[n].reply, k, c)
  {
    SavedIff(p, steps, i, k, c);
    EveryEmailIsSettled(p, steps, i);
    var h := History(p, steps, i);
    hide Run, History, HasVerdict;
    if n :| 0 <= n < |h| && IsReply(h[n]) && Accepts(p, h[n].reply, k, c) {
      assert Convinces(p, h[n].reply);
      assert h[n + 1] == SaveReply(i, true);
    }
  }

  // ---------------------------------------------------------------- how tasks are started

  /** Four places are used: as long as emails wait, either four tasks are in flight or another can start. */
  lemma PlacesAreUsed(s: State, i: nat) returns (j: nat)
    requires i < |s.tasks| && s.tasks[i] == Waiting
    ensures Running(s.tasks) >= 4 || Enabled(s, Start(j))
  {
    j := FirstWaiting(s.tasks, i);
  }

  /** Emails are taken up in their order. */
  ghost predicate InOrder(ts: seq<Phase>) {
    forall i, j | 0 <= i < j < |ts| && ts[j] != Waiting :: ts[i] != Waiting
  }

  lemma {:induction false} StartsInOrder(p: Pass, steps: seq<Step>)
    ensures InOrder(Run(p, Init(p), steps).tasks)
  {
    if steps != [] {
      var init, last := steps[..|steps| - 1], steps[|steps| - 1];
      StartsInOrder(p, init);
      RunPush(p, Init(p), steps);
      var mid := Run(p, Init(p), init);
      if Enabled(mid, last) {
        StepKeepsOrder(p, mid, last);
      }
    }
  }

  lemma StepKeepsOrder(p: Pass, s: State, step: Step)
    requires Enabled(s, step) && InOrder(s.tasks)
    ensures InOrder(Apply(p, s, step).tasks)
  {
    var after := Apply(p, s, step);
    assert after.tasks == s.tasks[step.task := after.tasks[step.task]];
    assert after.tasks[step.task] != Waiting;
    hide RunClassification, FirstExact, Chosen, Apply;
  }

  // ---------------------------------------------------------------- every run ends

  function Weight(ph: Phase): nat {
    match ph
    case Waiting => 5
    case Tier1 => 4
    case Fetching => 3
    case Tier2 => 2
    case Saving(_, _) => 1
    case _ => 0
  }

  function WorkLeft(ts: seq<Phase>): nat {
    if ts == [] then 0 else WorkLeft(ts[..|ts| - 1]) + Weight(ts[|ts| - 1])
  }

  lemma {:induction false} WorkAfterMove(ts: seq<Phase>, i: nat, ph: Phase)
    requires i < |ts|
    ensures WorkLeft(ts[i := ph]) == WorkLeft(ts) - Weight(ts[i]) + Weight(ph)
  {
    var init := ts[..|ts| - 1];
    if i == |ts| - 1 {
      assert ts[i := ph][..i] == init;
    } else {
      WorkAfterMove(init, i, ph);
      assert ts[i := ph][..|ts| - 1] == init[i := ph];
    }
  }

  lemma {:induction false} InitialWork(n: nat)
    ensures WorkLeft(seq(n, i => Waiting)) == 5 * n
  {
    if n > 0 {
      InitialWork(n - 1);
      assert (seq(n, i => Waiting))[..n - 1] == seq(n - 1, i => Waiting);
    }
  }

  lemma StepDoesWork(p: Pass, s: State, step: Step)
    requires Enabled(s, step)
    ensures WorkLeft(Apply(p, s, step).tasks) < WorkLeft(s.tasks)
  {
    WorkAfterMove(s.tasks, step.task, Apply(p, s, step).tasks[step.task]);
  }

  function StepsTaken(p: Pass, s: State, steps: seq<Step>): nat
    decreases |steps|
  {
    if steps == [] then 0
    else if Enabled(s, steps[0]) then 1 + StepsTaken(p, Apply(p, s, steps[0]), steps[1..])
    else StepsTaken(p, s, steps[1..])
  }

  lemma {:induction false} StepsAreBounded(p: Pass, s: State, steps: seq<Step>)
    ensures StepsTaken(p, s, steps) + WorkLeft(Run(p, s, steps).tasks) <= WorkLeft(s.tasks)
    decreases |steps|
  {
    if steps != [] {
      if Enabled(s, steps[0]) {
        StepDoesWork(p, s, steps[0]);
        StepsAreBounded(p, Apply(p, s, steps[0]), steps[1..]);
      } else {
        StepsAreBounded(p, s, steps[1..]);
      }
    }
  }

  /** No pass takes more than five steps per email, whatever the replies and their order. */
  lemma PassEnds(p: Pass, steps: seq<Step>)
    ensures StepsTaken(p, Init(p), steps) <= 5 * p.total
  {
    StepsAreBounded(p, Init(p), steps);
    InitialWork(p.total);
  }
}
