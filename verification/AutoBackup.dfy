/**
 The auto-backup counter. Every save queues a flush; the flushes run one after another and
 fold the saves seen so far into a persisted counter that triggers a backup at a threshold.
 Saves go on between the steps of a flush.
 */
module AutoBackup {

  /** Where the running flush stands; `seen` saves are in its hands. */
  datatype Phase =
    | Idle
    | Reading(seen: nat)
    | Writing(seen: nat, next: nat)
    | BackingUp

  /** `counter` is the value in the metadata table, `queued` counts the flushes not yet begun. */
  datatype State = State(listening: bool, pending: nat, queued: nat, phase: Phase, counter: nat)

  function InFlight(s: State): nat {
    match s.phase
    case Reading(seen) => seen
    case Writing(seen, _) => seen
    case _ => 0
  }

  // ------------------------------------------------------------- the steps

  function Saved(s: State): State {
    if s.listening then s.(pending := s.pending + 1, queued := s.queued + 1) else s
  }

  predicate CanBegin(s: State) {
    s.queued > 0 && s.phase.Idle?
  }

  function Begun(s: State, threshold: int): State
    requires CanBegin(s)
  {
    s.(queued := s.queued - 1, pending := 0,
       phase := if s.pending == 0 || threshold <= 0 then Idle else Reading(s.pending))
  }

  function CounterRead(s: State): State
    requires s.phase.Reading?
  {
    s.(phase := Writing(s.phase.seen, s.counter + s.phase.seen))
  }

  function CounterWritten(s: State, threshold: int): State
    requires s.phase.Writing?
  {
    if s.phase.next >= threshold then s.(counter := 0, phase := BackingUp)
    else s.(counter := s.phase.next, phase := Idle)
  }

  /** A flush that ends, or that fails on the way and is only logged. */
  function Ended(s: State): State
    requires !s.phase.Idle?
  {
    s.(phase := Idle)
  }

  // ---------------------------------------------------------- the service

  /** The service and the metadata row it owns. Each method is the code between two awaits. */
  class BackupService {
    const threshold: int
    var listening: bool
    var pending: nat
    var queued: nat
    var phase: Phase
    var counter: nat

    ghost function Now(): State
      reads this
    {
      State(listening, pending, queued, phase, counter)
    }

    constructor (threshold: int, counter: nat)
      ensures this.threshold == threshold
      ensures Now() == State(false, 0, 0, Idle, counter)
    {
      this.threshold := threshold;
      this.counter := counter;
      listening, pending, queued, phase := false, 0, 0, Idle;
    }

    method Start()
      modifies this
      ensures Now() == old(Now()).(listening := true)
    {
      listening := true;
    }

    method Stop()
      modifies this
      ensures Now() == old(Now()).(listening := false)
    {
      listening := false;
    }

    method OnSaved()
      modifies this
      ensures Now() == Saved(old(Now()))
    {
      if listening {
        pending := pending + 1;
        queued := queued + 1;
      }
    }

    method BeginFlush()
      requires CanBegin(Now())
      modifies this
      ensures Now() == Begun(old(Now()), threshold)
    {
      queued := queued - 1;
      var seen := pending;
      pending := 0;
      if seen == 0 || threshold <= 0 {
        return;
      }
      phase := Reading(seen);
    }

    method ReadCounter()
      requires phase.Reading?
      modifies this
      ensures Now() == CounterRead(old(Now()))
    {
      phase := Writing(phase.seen, counter + phase.seen);
    }

    method WriteCounter() returns (triggers: bool)
      requires phase.Writing?
      modifies this
      ensures Now() == CounterWritten(old(Now()), threshold)
      ensures triggers == (old(phase.next) >= threshold)
    {
      triggers := phase.next >= threshold;
      if triggers {
        counter := 0;
        phase := BackingUp;
      } else {
        counter := phase.next;
        phase := Idle;
      }
    }

    method EndFlush()
      requires !phase.Idle?
      modifies this
      ensures Now() == Ended(old(Now()))
    {
      phase := Idle;
    }
  }

  // ------------------------------------------------------------------ runs

  datatype Event = Save | Toggle(on: bool) | Begin | Read | Write | FinishBackup | Fail

  ghost predicate Enabled(s: State, e: Event) {
    match e
    case Save => true
    case Toggle(_) => true
    case Begin => CanBegin(s)
    case Read => s.phase.Reading?
    case Write => s.phase.Writing?
    case FinishBackup => s.phase.BackingUp?
    case Fail => !s.phase.Idle?
  }

  function After(s: State, e: Event, threshold: int): State {
    match e
    case Save => Saved(s)
    case Toggle(on) => s.(listening := on)
    case Begin => if CanBegin(s) then Begun(s, threshold) else s
    case Read => if s.phase.Reading? then CounterRead(s) else s
    case Write => if s.phase.Writing? then CounterWritten(s, threshold) else s
    case FinishBackup => if !s.phase.Idle? then Ended(s) else s
    case Fail => if !s.phase.Idle? then Ended(s) else s
  }

  function StateAfter(start: State, events: seq<Event>, threshold: int): State {
    if events == [] then start
    else After(StateAfter(start, events[..|events| - 1], threshold), events[|events| - 1], threshold)
  }

  ghost predicate IsRun(start: State, events: seq<Event>, threshold: int) {
    forall i :: 0 <= i < |events| ==> Enabled(StateAfter(start, events[..i], threshold), events[i])
  }

  /** What happened over a run: saves heard, saves backed up, saves dropped, and backups triggered. */
  datatype Tally = Tally(saves: nat, consumed: nat, dropped: nat, triggers: nat, flushes: nat)

  /** What one event adds; a `Begin` drops its saves when the threshold is off, a failed flush those in its hands. */
  function Counted(t: Tally, s: State, e: Event, threshold: int): Tally {
    match e
    case Save => if s.listening then t.(saves := t.saves + 1) else t
    case Begin => if threshold <= 0 then t.(dropped := t.dropped + s.pending) else t
    case Write =>
      if s.phase.Writing? then
        if s.phase.next >= threshold
        then t.(consumed := t.consumed + s.phase.next, triggers := t.triggers + 1, flushes := t.flushes + 1)
        else t.(flushes := t.flushes + 1)
      else t
    case Fail => t.(dropped := t.dropped + InFlight(s))
    case _ => t
  }

  function TallyAfter(start: State, events: seq<Event>, threshold: int): Tally {
    if events == [] then Tally(0, 0, 0, 0, 0)
    else
      var init := events[..|events| - 1];
      Counted(TallyAfter(start, init, threshold), StateAfter(start, init, threshold), events[|events| - 1], threshold)
  }

  /** A service at rest, whatever its counter. */
  ghost predicate Rest(s: State) {
    s.pending == 0 && s.queued == 0 && s.phase.Idle?
  }

  ghost predicate Inv(start: State, s: State, t: Tally, threshold: int) {
    && start.counter + t.saves == t.consumed + t.dropped + s.counter + InFlight(s) + s.pending
    && (s.pending > 0 ==> s.queued > 0)
    && (s.phase.Writing? ==> s.phase.next == s.counter + s.phase.seen)
    && t.triggers * threshold <= t.consumed
    && (t.flushes > 0 && threshold > 0 ==> s.counter < threshold)
    && (s.phase.Reading? || s.phase.Writing? ==> threshold > 0 && s.phase.seen > 0)
    && (threshold <= 0 ==> t.triggers == 0)
  }

  lemma OneTriggerMore(triggers: nat, threshold: int)
    ensures (triggers + 1) * threshold == triggers * threshold + threshold
  {
  }

  lemma StepKeepsInv(start: State, s: State, t: Tally, e: Event, threshold: int)
    requires Inv(start, s, t, threshold) && Enabled(s, e)
    ensures Inv(start, After(s, e, threshold), Counted(t, s, e, threshold), threshold)
  {
    OneTriggerMore(t.triggers, threshold);
  }

  lemma {:induction false} RunKeepsInv(start: State, events: seq<Event>, threshold: int)
    requires Rest(start) && IsRun(start, events, threshold)
    ensures Inv(start, StateAfter(start, events, threshold), TallyAfter(start, events, threshold), threshold)
  {
    if events != [] {
      var n := |events| - 1;
      RunPrefix(start, events, n, threshold);
      RunKeepsInv(start, events[..n], threshold);
      StepKeepsInv(start, StateAfter(start, events[..n], threshold), TallyAfter(start, events[..n], threshold),
                   events[n], threshold);
    }
  }

  lemma RunPrefix(start: State, events: seq<Event>, n: nat, threshold: int)
    requires n <= |events| && IsRun(start, events, threshold)
    ensures IsRun(start, events[..n], threshold)
  {
    forall i | 0 <= i < n ensures Enabled(StateAfter(start, events[..n][..i], threshold), events[..n][i]) {
      assert events[..n][..i] == events[..i];
    }
  }

  // --------------------------------------------------------- what it keeps

  /**
   Every save heard is accounted for, at every moment of every run: backed up, in the counter,
   in the hands of the running flush, pending, or dropped.
   */
  lemma SavesAreConserved(start: State, events: seq<Event>, threshold: int)
    requires Rest(start) && IsRun(start, events, threshold)
    ensures var s, t := StateAfter(start, events, threshold), TallyAfter(start, events, threshold);
      start.counter + t.saves == t.consumed + t.dropped + s.counter + InFlight(s) + s.pending
  {
    RunKeepsInv(start, events, threshold);
  }

  /** Nothing is dropped while the threshold is on and no flush fails. */
  lemma {:induction false} NothingIsDropped(start: State, events: seq<Event>, threshold: int)
    requires threshold > 0 && Fail !in events
    ensures TallyAfter(start, events, threshold).dropped == 0
  {
    if events != [] {
      assert Fail !in events[..|events| - 1] && events[|events| - 1] != Fail;
      NothingIsDropped(start, events[..|events| - 1], threshold);
    }
  }

  /** After any flush that saw saves the counter stays below the threshold. */
  lemma CounterStaysBelow(start: State, events: seq<Event>, threshold: int)
    requires threshold > 0 && Rest(start) && IsRun(start, events, threshold)
    requires TallyAfter(start, events, threshold).flushes > 0
    ensures StateAfter(start, events, threshold).counter < threshold
  {
    RunKeepsInv(start, events, threshold);
  }

  /** So many backups take at least so many thresholds of saves. */
  lemma TriggersNeedSaves(start: State, events: seq<Event>, threshold: int)
    requires Rest(start) && IsRun(start, events, threshold)
    ensures var t := TallyAfter(start, events, threshold);
      t.triggers * threshold <= t.consumed <= start.counter + t.saves
  {
    RunKeepsInv(start, events, threshold);
  }

  /** And a drained queue leaves less than one threshold of saves without a backup. */
  lemma DrainedQueueIsBackedUp(start: State, events: seq<Event>, threshold: int)
    requires threshold > 0 && Fail !in events && start.counter < threshold
    requires Rest(start) && IsRun(start, events, threshold)
    requires StateAfter(start, events, threshold).queued == 0 && StateAfter(start, events, threshold).phase.Idle?
    ensures var t := TallyAfter(start, events, threshold);
      0 <= start.counter + t.saves - t.consumed < threshold
  {
    RunKeepsInv(start, events, threshold);
    NothingIsDropped(start, events, threshold);
    StartsBelow(start, events, threshold);
  }

  lemma {:induction false} StartsBelow(start: State, events: seq<Event>, threshold: int)
    requires start.counter < threshold
    requires Rest(start) && IsRun(start, events, threshold)
    ensures StateAfter(start, events, threshold).counter < threshold
  {
    if events != [] {
      RunPrefix(start, events, |events| - 1, threshold);
      StartsBelow(start, events[..|events| - 1], threshold);
    }
  }
}
