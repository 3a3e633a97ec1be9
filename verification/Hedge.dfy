/** The hedged trace requests as a transition system: a coordinator, workers, a buffered channel and a timer. */
module Hedge {
  import opened Results

  datatype Status = Unstarted | Succeeded | Failed | Canceled

  /** What an attempt reports; the payload stands for whatever it found. */
  datatype Attempt = Attempt(status: Status, payload: string)

  const NOT_STARTED := Attempt(Unstarted, "")

  datatype Report = Report(index: nat, result: Attempt)

  /** The workers and what is known of them: running, on the channel of capacity n, or received and stored. */
  datatype Ledger = Ledger(
    n: nat, next: nat, started: nat, completed: nat, attempts: seq<Attempt>,
    running: set<nat>, channel: seq<Report>, received: set<nat>)

  datatype Timer = Off | Armed | Fired

  /** Where the coordinator stands. */
  datatype Place =
    | Starting
    | Head
    | Waiting
    | Received(report: Report)
    | Deciding(report: Report)
    | TimerLaunch
    | Settling
    | Finishing
    | Draining(won: bool)
    | Returned

  /** eager is hedgeDelay <= 0; the parent context is canceled at most once, possibly by its deadline. */
  datatype State = State(
    book: Ledger, eager: bool, timer: Timer, winner: Option<nat>, timedOut: bool,
    canceled: bool, deadline: bool, childCanceled: bool, place: Place)

  function NewLedger(n: nat): Ledger {
    Ledger(n, 0, 0, 0, seq(n, _ => NOT_STARTED), {}, [], {})
  }

  function Initial(n: nat, eager: bool, canceled: bool, deadline: bool): State {
    State(NewLedger(n), eager, Off, None, false, canceled, canceled && deadline, false, Starting)
  }

  // ---------------------------------------------------------------------------
  // Workers

  /** The next endpoint's worker starts. */
  function Started(b: Ledger): Ledger {
    b.(next := b.next + 1, started := b.started + 1, running := b.running + {b.next})
  }

  /** A worker finishes and puts its report on the channel. */
  function Sent(b: Ledger, report: Report): Ledger {
    b.(running := b.running - {report.index}, channel := b.channel + [report])
  }

  predicate Ready(b: Ledger) {
    b.channel != [] && b.channel[0].index < |b.attempts|
  }

  /** The first report on the channel is stored. */
  function Stored(b: Ledger): Ledger
    requires Ready(b)
  {
    var report := b.channel[0];
    b.(attempts := b.attempts[report.index := report.result], completed := b.completed + 1,
       channel := b.channel[1..], received := b.received + {report.index})
  }

  // ---------------------------------------------------------------------------
  // The coordinator's closures

  function FinishCanceled(s: State): State {
    s.(timer := Off, childCanceled := true, place := Draining(false))
  }

  function FinishWinner(s: State, index: nat): State {
    s.(winner := Some(index), timer := Off, childCanceled := true, place := Draining(true))
  }

  /** launchNext, then on to another place unless the parent is canceled. */
  function Launch(s: State, onward: Place): State {
    if s.book.next >= s.book.n then s.(place := onward)
    else if s.canceled then FinishCanceled(s)
    else
      var timer := if !s.eager && s.book.next + 1 < s.book.n then Armed else Off;
      s.(book := Started(s.book), timer := timer, place := onward)
  }

  function Go(s: State, place: Place): State { s.(place := place) }

  /** Before the loop: the first launch, and all others when there is no hedge delay. */
  function Begin(s: State): State {
    if s.book.n == 0 then s.(timedOut := s.canceled && s.deadline, place := Returned)
    else if s.book.next == 0 || (s.eager && s.book.next < s.book.n) then Launch(s, Starting)
    else Go(s, Head)
  }

  /** The switch on a stored report's status. */
  function Decide(s: State, report: Report): State {
    match report.result.status
    case Succeeded => FinishWinner(s, report.index)
    case Failed => Launch(s, Settling)
    case _ => Go(s, Settling)
  }

  function Finish(s: State): State {
    if s.canceled then FinishCanceled(s) else s.(timer := Off, place := Returned)
  }

  /** One straight-line piece of the coordinator, between two points where it can notice its environment. */
  function Advance(s: State): State {
    match s.place
    case Starting => Begin(s)
    case Head => if s.canceled then FinishCanceled(s) else Go(s, Waiting)
    case Received(report) => if s.canceled then FinishCanceled(s) else Go(s, Deciding(report))
    case Deciding(report) => Decide(s, report)
    case TimerLaunch => Launch(s, Head)
    case Settling =>
      Go(s, if s.book.completed == s.book.started && s.book.next >= s.book.n then Finishing else Head)
    case Finishing => Finish(s)
    case Draining(won) => s.(timedOut := !won && s.deadline, place := Returned)
    case Waiting => s
    case Returned => s
  }

  // ---------------------------------------------------------------------------
  // Events

  datatype Event =
    | Cancel(byDeadline: bool)
    | Fire
    | Send(report: Report)
    | Step
    | TakeDone
    | TakeResult
    | TakeTimer

  /** What can happen: the environment at any time, the coordinator where it stands. */
  predicate Enabled(s: State, ev: Event) {
    match ev
    case Cancel(_) => !s.canceled && !s.place.Returned?
    case Fire => s.timer.Armed?
    case Send(report) => report.index in s.book.running && |s.book.channel| < s.book.n
    case Step =>
      !s.place.Waiting? && !s.place.Returned? && (s.place.Draining? ==> s.book.completed >= s.book.started)
    case TakeDone => s.place.Waiting? && s.canceled
    case TakeResult =>
      (s.place.Waiting? || (s.place.Draining? && s.book.completed < s.book.started)) && Ready(s.book)
    case TakeTimer => s.place.Waiting? && s.timer.Fired?
  }

  function Apply(s: State, ev: Event): State
    requires Enabled(s, ev)
  {
    match ev
    case Cancel(byDeadline) => s.(canceled := true, deadline := byDeadline)
    case Fire => s.(timer := Fired)
    case Send(report) => s.(book := Sent(s.book, report))
    case Step => Advance(s)
    case TakeDone => FinishCanceled(s)
    case TakeResult =>
      s.(book := Stored(s.book), place := if s.place.Waiting? then Received(s.book.channel[0]) else s.place)
    case TakeTimer => s.(timer := Off, place := TimerLaunch)
  }

  // ---------------------------------------------------------------------------
  // The workers' ledger

  predicate OnChannel(b: Ledger, i: nat) {
    exists k :: 0 <= k < |b.channel| && b.channel[k].index == i
  }

  /** The first `next` endpoints have started; each is running, on the channel, or received, and only one of them. */
  ghost predicate Accounted(b: Ledger) {
    && b.started == b.next <= b.n && |b.attempts| == b.n
    && |b.running| + |b.channel| + b.completed == b.started && |b.received| == b.completed
    && (forall i :: i in b.running ==> i < b.next && i !in b.received)
    && (forall k :: 0 <= k < |b.channel| ==>
      var i := b.channel[k].index; i < b.next && i !in b.running && i !in b.received)
    && (forall k, l :: 0 <= k < l < |b.channel| ==> b.channel[k].index != b.channel[l].index)
    && (forall i :: i in b.received ==> i < b.next)
    && (forall i: nat :: i < b.next ==> i in b.running || i in b.received || OnChannel(b, i))
    && (forall i :: 0 <= i < |b.attempts| && i !in b.received ==> b.attempts[i] == NOT_STARTED)
  }

  lemma StartedAccounted(b: Ledger)
    requires Accounted(b) && b.next < b.n
    ensures Accounted(Started(b))
  {
    var t := Started(b);
    forall i: nat | i < t.next ensures i in t.running || i in t.received || OnChannel(t, i) {
      if i < b.next && OnChannel(b, i) { assert OnChannel(t, i); }
    }
  }

  lemma SentAccounted(b: Ledger, report: Report)
    requires Accounted(b) && report.index in b.running
    ensures Accounted(Sent(b, report))
  {
    var t := Sent(b, report);
    forall i: nat | i < t.next ensures i in t.running || i in t.received || OnChannel(t, i) {
      if i == report.index {
        assert t.channel[|b.channel|].index == i;
      } else if OnChannel(b, i) {
        var k :| 0 <= k < |b.channel| && b.channel[k].index == i;
        assert t.channel[k].index == i;
      }
    }
  }

  lemma StoredAccounted(b: Ledger)
    requires Accounted(b) && Ready(b)
    ensures Accounted(Stored(b))
  {
    var t := Stored(b);
    assert forall k :: 0 <= k < |t.channel| ==> t.channel[k] == b.channel[k + 1];
    forall i: nat | i < t.next ensures i in t.running || i in t.received || OnChannel(t, i) {
      if i != b.channel[0].index && OnChannel(b, i) {
        var k :| 0 <= k < |b.channel| && b.channel[k].index == i;
        assert t.channel[k - 1].index == i;
      }
    }
  }

  lemma StepLedger(s: State)
    ensures var b := Advance(s).book; b == s.book || (s.book.next < s.book.n && b == Started(s.book))
  {
    hide Started;
  }

  /** The four ways an event touches the ledger. */
  lemma LedgerCases(s: State, ev: Event)
    requires Enabled(s, ev)
    ensures var b := Apply(s, ev).book;
      || b == s.book
      || (s.book.next < s.book.n && b == Started(s.book))
      || (ev.TakeResult? && Ready(s.book) && b == Stored(s.book))
      || (ev.Send? && ev.report.index in s.book.running && b == Sent(s.book, ev.report))
  {
    StepLedger(s);
    hide Started, Stored, Sent, Advance, Ready;
  }

  lemma AccountedKept(s: State, ev: Event)
    requires Accounted(s.book) && Enabled(s, ev)
    ensures Accounted(Apply(s, ev).book)
  {
    hide Apply, Accounted, Enabled, Started, Sent, Stored;
    LedgerCases(s, ev);
    if s.book.next < s.book.n { StartedAccounted(s.book); }
    if Ready(s.book) { StoredAccounted(s.book); }
    if ev.Send? && ev.report.index in s.book.running { SentAccounted(s.book, ev.report); }
  }

  /** What the counters say of the workers. */
  lemma Counts(b: Ledger)
    requires Accounted(b)
    ensures b.started == b.next <= b.n && |b.attempts| == b.n && |b.channel| <= b.n && b.completed <= b.started
    ensures b.completed < b.started <==> b.running != {} || b.channel != []
    ensures b.running != {} ==> |b.channel| < b.n
    ensures forall k :: 0 <= k < |b.channel| ==> b.channel[k].index < |b.attempts| && b.channel[k].index !in b.received
    ensures b.completed == b.started ==> forall i: nat :: i < b.next ==> i in b.received
  {
    if b.running != {} {
      var i :| i in b.running;
      assert |b.running - {i}| == |b.running| - 1;
    }
  }

  // ---------------------------------------------------------------------------
  // The coordinator

  /** The places between the first launch and the decision to finish. */
  predicate Looping(p: Place) {
    p.Head? || p.Waiting? || p.Received? || p.Deciding? || p.TimerLaunch? || p.Settling? || p.Finishing?
  }

  /** While endpoints remain, the timer will launch the next one; it is stopped otherwise. */
  predicate Timed(s: State) {
    && (s.timer != Off ==> !s.eager && 0 < s.book.next < s.book.n && (Looping(s.place) || s.place.Starting?))
    && (Looping(s.place) ==> 0 < s.book.next)
    && ((Looping(s.place) || (s.place.Starting? && s.book.next > 0 && !s.eager)) && s.book.next < s.book.n ==>
      !s.eager && (s.timer != Off || s.place.TimerLaunch?))
    && (s.place.TimerLaunch? ==> s.book.next < s.book.n)
    && (s.place.Finishing? ==> s.book.completed == s.book.started && s.book.next == s.book.n)
    && (s.place.Starting? ==> s.book.completed == 0)
    && (s.place.Head? || s.place.Waiting? ==> s.book.completed < s.book.started || s.book.next < s.book.n)
  }

  predicate CurrentReport(s: State, i: nat) {
    (s.place.Received? || s.place.Deciding?) && s.place.report.index == i
  }

  /** Nothing received so far succeeded, but for the report in hand. */
  predicate NoSuccess(s: State) {
    forall i :: i in s.book.received && !CurrentReport(s, i) ==>
      i < |s.book.attempts| && s.book.attempts[i].status != Succeeded
  }

  predicate InHand(s: State) {
    s.place.Received? || s.place.Deciding? ==>
      var r := s.place.report;
      r.index in s.book.received && r.index < |s.book.attempts| && s.book.attempts[r.index] == r.result
  }

  predicate Decided(s: State) {
    && (s.winner.Some? ==>
      && s.winner.value in s.book.received && s.winner.value < |s.book.attempts|
      && s.book.attempts[s.winner.value].status == Succeeded)
    && (Looping(s.place) || s.place.Starting? || s.place == Draining(false) ==> s.winner.None?)
    && (s.place == Draining(true) ==> s.winner.Some?)
  }

  predicate Flags(s: State) {
    && (s.deadline ==> s.canceled)
    && (s.place == Draining(false) ==> s.canceled)
    && (s.place.Draining? ==> s.childCanceled)
    && (s.timedOut ==> s.place.Returned? && s.canceled && s.deadline && s.winner.None?)
  }

  predicate Outcomes(s: State) {
    InHand(s) && Decided(s) && Flags(s) && (Looping(s.place) || s.place.Starting? ==> NoSuccess(s))
  }

  /** What holds when the call returns. */
  predicate Settled(s: State) {
    s.place.Returned? ==>
      && s.book.completed == s.book.started
      && (s.timedOut <==> s.winner.None? && s.deadline)
      && (s.winner.None? && !s.canceled ==> s.book.next == s.book.n && NoSuccess(s))
  }

  /** The endpoints known to have failed. */
  function Failures(b: Ledger): set<nat> { FailedAmong(b.attempts, b.received) }

  function FailedAmong(attempts: seq<Attempt>, received: set<nat>): set<nat> {
    set i | i in received && i < |attempts| && attempts[i].status.Failed?
  }

  /** A failure in hand that no launch has answered yet. */
  predicate Unanswered(p: Place) {
    (p.Received? || p.Deciding?) && p.report.result.status.Failed?
  }

  /** Each definite failure was answered by one launch more, while endpoints remained. */
  predicate Answered(s: State) {
    Looping(s.place) && s.book.next < s.book.n ==>
      |Failures(s.book)| + (if Unanswered(s.place) then 0 else 1) <= s.book.next
  }

  ghost predicate Inv(s: State) {
    Accounted(s.book) && Timed(s) && Outcomes(s) && Settled(s) && Answered(s)
  }

  lemma InitialInv(n: nat, eager: bool, canceled: bool, deadline: bool)
    ensures Inv(Initial(n, eager, canceled, deadline))
  {
  }

  lemma LaunchTimed(s: State, onward: Place)
    requires Timed(s) && s.book.completed <= s.book.started == s.book.next <= s.book.n
    requires s.place.Starting? || s.place.Deciding? || s.place.TimerLaunch?
    requires onward == (if s.place.Starting? then Starting else if s.place.Deciding? then Settling else Head)
    requires s.place.Starting? ==> s.book.next == 0 || (s.eager && s.book.next < s.book.n)
    ensures Timed(Launch(s, onward))
  {
  }

  lemma BeginTimed(s: State)
    requires Timed(s) && s.book.completed <= s.book.started == s.book.next <= s.book.n && s.place.Starting?
    ensures Timed(Begin(s))
  {
    if s.book.n > 0 && (s.book.next == 0 || (s.eager && s.book.next < s.book.n)) {
      hide Timed, Launch;
      LaunchTimed(s, Starting);
    }
  }

  lemma DecideTimed(s: State)
    requires Timed(s) && s.book.completed <= s.book.started == s.book.next <= s.book.n && s.place.Deciding?
    ensures Timed(Decide(s, s.place.report))
  {
    LaunchTimed(s, Settling);
    hide Launch;
  }

  lemma StepTimed(s: State)
    requires Timed(s) && s.book.completed <= s.book.started == s.book.next <= s.book.n && Enabled(s, Step)
    ensures Timed(Advance(s))
  {
    if s.place.Starting? {
      hide Timed, Begin, Enabled;
      BeginTimed(s);
    } else if s.place.Deciding? {
      hide Timed, Decide, Enabled;
      DecideTimed(s);
    } else if s.place.TimerLaunch? {
      hide Timed, Launch, Enabled;
      LaunchTimed(s, Head);
    } else {
      hide Launch, Begin, Decide;
    }
  }

  lemma TimedKept(s: State, ev: Event)
    requires s.book.completed <= s.book.started == s.book.next <= s.book.n && Timed(s) && Enabled(s, ev)
    ensures Timed(Apply(s, ev))
  {
    if ev.Step? {
      hide Timed, Enabled, Advance;
      StepTimed(s);
    }
  }

  /** Received reports stay received, as they are. */
  lemma ReceivedStays(s: State, ev: Event, i: nat)
    requires Accounted(s.book) && Enabled(s, ev) && i in s.book.received
    ensures var b := Apply(s, ev).book;
      i in b.received && i < |b.attempts| == |s.book.attempts| && b.attempts[i] == s.book.attempts[i]
  {
    Counts(s.book);
    assert i < |s.book.attempts|;
    LedgerCases(s, ev);
    hide Accounted, Apply, Enabled;
  }

  /** Reports come only from TakeResult. */
  lemma ReceivedSame(s: State, ev: Event)
    requires Enabled(s, ev) && !ev.TakeResult?
    ensures var b := Apply(s, ev).book;
      b.received == s.book.received && b.attempts == s.book.attempts && b.completed == s.book.completed
  {
    LedgerCases(s, ev);
    hide Apply, Enabled;
  }

  lemma InHandKept(s: State, ev: Event)
    requires Accounted(s.book) && InHand(s) && Enabled(s, ev)
    ensures InHand(Apply(s, ev))
  {
    if ev.TakeResult? {
      hide Accounted;
    } else {
      ReceivedSame(s, ev);
      PlaceAfter(s, ev);
      hide Apply, Accounted, Enabled;
    }
  }

  lemma LaunchPlace(s: State, onward: Place)
    ensures Launch(s, onward).place == onward || Launch(s, onward).place == Draining(false)
  {
  }

  lemma BeginPlace(s: State)
    ensures var p := Begin(s).place; !p.Received? && !p.Deciding?
  {
    LaunchPlace(s, Starting);
    hide Launch;
  }

  lemma DecidePlace(s: State, report: Report)
    ensures var p := Decide(s, report).place; !p.Received? && !p.Deciding?
  {
    LaunchPlace(s, Settling);
    assert FinishWinner(s, report.index).place == Draining(true);
    hide Launch, FinishWinner;
  }

  lemma StepPlace(s: State)
    ensures var p := Advance(s).place;
      p.Received? || p.Deciding? ==> (s.place.Received? || s.place.Deciding?) && p.report == s.place.report
  {
    BeginPlace(s);
    if s.place.Deciding? { DecidePlace(s, s.place.report); }
    LaunchPlace(s, Head);
    hide Launch, Begin, Decide;
  }

  /** A report is in hand only as TakeResult left it. */
  lemma PlaceAfter(s: State, ev: Event)
    requires Enabled(s, ev) && !ev.TakeResult?
    ensures var p := Apply(s, ev).place;
      p.Received? || p.Deciding? ==> (s.place.Received? || s.place.Deciding?) && p.report == s.place.report
  {
    StepPlace(s);
    hide Advance, Started, Sent;
  }

  lemma LaunchDecided(s: State, onward: Place)
    requires s.winner.None? && onward != Draining(true)
    ensures Decided(Launch(s, onward))
  {
    var t := Launch(s, onward);
    assert t.winner.None? && t.place != Draining(true);
    hide Launch;
  }

  lemma BeginDecided(s: State)
    requires s.winner.None?
    ensures Decided(Begin(s))
  {
    LaunchDecided(s, Starting);
    hide Launch;
  }

  lemma DecideDecided(s: State)
    requires Decided(s) && InHand(s) && s.place.Deciding?
    ensures Decided(Decide(s, s.place.report))
  {
    LaunchDecided(s, Settling);
    hide Launch;
  }

  lemma StepDecided(s: State)
    requires Decided(s) && InHand(s) && Enabled(s, Step)
    ensures Decided(Advance(s))
  {
    if s.place.Starting? {
      BeginDecided(s);
      hide Begin, InHand;
    } else if s.place.Deciding? {
      DecideDecided(s);
      hide Decide, Decided, InHand, Enabled;
    } else if s.place.TimerLaunch? {
      LaunchDecided(s, Head);
      hide Launch, InHand;
    } else {
      hide Launch, Begin, Decide, InHand;
    }
  }

  lemma DecidedKept(s: State, ev: Event)
    requires Accounted(s.book) && Decided(s) && InHand(s) && Enabled(s, ev)
    ensures Decided(Apply(s, ev))
  {
    if ev.Step? {
      hide Advance, Decided, InHand, Enabled;
      StepDecided(s);
    } else {
      if s.winner.Some? { ReceivedStays(s, ev, s.winner.value); }
      hide Accounted, Started, Sent, Stored;
    }
  }

  lemma FlagsKept(s: State, ev: Event)
    requires Flags(s) && Decided(s) && Enabled(s, ev)
    ensures Flags(Apply(s, ev))
  {
    hide Started, Sent, Stored;
  }

  lemma StoredNoSuccess(s: State)
    requires Accounted(s.book) && NoSuccess(s) && Enabled(s, TakeResult) && s.place.Waiting?
    ensures NoSuccess(Apply(s, TakeResult))
  {
    Counts(s.book);
    hide Accounted;
  }

  /** A step that keeps looping had nothing received that succeeded, the report in hand included. */
  lemma StepLooping(s: State)
    requires Enabled(s, Step)
    ensures var p := Advance(s).place;
      Looping(p) || p.Starting? ==>
        && (Looping(s.place) || s.place.Starting?)
        && (s.place.Deciding? ==> s.place.report.result.status != Succeeded)
        && (s.place.Received? ==> p.Deciding? && p.report == s.place.report)
        && (p.Received? || p.Deciding? ==> s.place.Received?)
  {
    if s.place.Starting? || s.place.Deciding? || s.place.TimerLaunch? {
      LaunchPlace(s, Starting);
      LaunchPlace(s, Settling);
      LaunchPlace(s, Head);
      hide Launch;
    } else {
      hide Launch, Begin, Decide;
    }
  }

  lemma NoSuccessKept(s: State, ev: Event)
    requires Accounted(s.book) && InHand(s) && Enabled(s, ev)
    requires Looping(s.place) || s.place.Starting? ==> NoSuccess(s)
    ensures var t := Apply(s, ev); Looping(t.place) || t.place.Starting? ==> NoSuccess(t)
  {
    if ev.TakeResult? {
      if s.place.Waiting? { StoredNoSuccess(s); }
    } else {
      ReceivedSame(s, ev);
      if ev.Step? {
        StepLooping(s);
        hide Accounted, Advance;
      } else {
        hide Accounted, Sent;
      }
    }
  }

  lemma OutcomesKept(s: State, ev: Event)
    requires Accounted(s.book) && Outcomes(s) && Enabled(s, ev)
    ensures Outcomes(Apply(s, ev))
  {
    hide Accounted, Apply, Enabled, InHand, Decided, Flags, NoSuccess;
    InHandKept(s, ev);
    DecidedKept(s, ev);
    FlagsKept(s, ev);
    NoSuccessKept(s, ev);
  }

  /** Once the call has returned nothing is left to happen. */
  lemma ReturnedIsFinal(s: State, ev: Event)
    requires Accounted(s.book) && Timed(s) && Settled(s) && s.place.Returned?
    ensures !Enabled(s, ev)
  {
    Counts(s.book);
    hide Accounted;
  }

  lemma StepSettled(s: State)
    requires s.book.started == s.book.next <= s.book.n && s.book.completed <= s.book.started
    requires s.book.n == 0 ==> s.book.received == {}
    requires Timed(s) && Outcomes(s) && Enabled(s, Step)
    ensures Settled(Advance(s))
  {
    if s.place.Deciding? || s.place.TimerLaunch? {
      LaunchPlace(s, Settling);
      LaunchPlace(s, Head);
      hide Launch, Timed, Outcomes;
    } else if s.place.Starting? {
      LaunchPlace(s, Starting);
      hide Launch;
    } else {
      hide Launch, Begin, Decide;
    }
  }

  lemma SettledKept(s: State, ev: Event)
    requires Accounted(s.book) && Timed(s) && Outcomes(s) && Settled(s) && Enabled(s, ev)
    ensures Settled(Apply(s, ev))
  {
    if s.place.Returned? {
      ReturnedIsFinal(s, ev);
    } else if ev.Step? {
      Counts(s.book);
      assert s.book.n == 0 ==> s.book.received == {};
      hide Accounted, Timed, Outcomes, Settled, Answered, Enabled, Advance;
      StepSettled(s);
    } else {
      hide Accounted, Timed, Outcomes, Sent, Stored;
    }
  }

  lemma FailedInsert(attempts: seq<Attempt>, received: set<nat>, i: nat, a: Attempt)
    requires i < |attempts| && i !in received
    ensures |FailedAmong(attempts[i := a], received + {i})| ==
            |FailedAmong(attempts, received)| + if a.status.Failed? then 1 else 0
  {
    var before := FailedAmong(attempts, received);
    assert FailedAmong(attempts[i := a], received + {i}) == if a.status.Failed? then before + {i} else before;
  }

  lemma StoredFailures(b: Ledger)
    requires Accounted(b) && Ready(b)
    ensures |Failures(Stored(b))| == |Failures(b)| + if b.channel[0].result.status.Failed? then 1 else 0
  {
    Counts(b);
    hide Accounted, FailedAmong;
    FailedInsert(b.attempts, b.received, b.channel[0].index, b.channel[0].result);
  }

  lemma LaunchCounts(s: State, onward: Place)
    ensures var t := Launch(s, onward);
      && t.book.next >= s.book.next
      && (t.place == onward != Draining(false) ==> t.book.next == s.book.next + 1 || s.book.next >= s.book.n)
  {
  }

  lemma DecideAnswers(s: State)
    requires s.place.Deciding? && Looping(Decide(s, s.place.report).place)
    ensures var t := Decide(s, s.place.report);
      && t.place.Settling? && t.book.next >= s.book.next
      && (Unanswered(s.place) ==> t.book.next == s.book.next + 1 || s.book.next >= s.book.n)
  {
    LaunchPlace(s, Settling);
    LaunchCounts(s, Settling);
    hide Launch;
  }

  lemma BeginLoops(s: State)
    requires s.place.Starting? && Looping(Begin(s).place)
    ensures Begin(s) == Go(s, Head)
  {
    LaunchPlace(s, Starting);
    hide Launch;
  }

  lemma MoveAnswers(s: State)
    requires Enabled(s, Step) && !s.place.Starting? && !s.place.Deciding? && !s.place.TimerLaunch?
    requires Looping(Advance(s).place)
    ensures Looping(s.place) && Advance(s).book == s.book && Unanswered(Advance(s).place) == Unanswered(s.place)
  {
    hide Launch, Begin, Decide;
  }

  /** Where a step leads while the loop goes on, and what it launched. */
  lemma StepAnswers(s: State)
    requires Enabled(s, Step) && Looping(Advance(s).place)
    ensures s.place.Starting? || Looping(s.place)
    ensures s.place.Starting? ==> Advance(s).place.Head? && Advance(s).book == s.book
    ensures Advance(s).book.next >= s.book.next
    ensures Unanswered(Advance(s).place) ==> Unanswered(s.place)
    ensures Unanswered(s.place) ==>
      Unanswered(Advance(s).place) || Advance(s).book.next == s.book.next + 1 || s.book.next >= s.book.n
  {
    if s.place.Starting? {
      BeginLoops(s);
      hide Begin, Enabled;
    } else if s.place.Deciding? {
      DecideAnswers(s);
      hide Decide, Enabled;
    } else if s.place.TimerLaunch? {
      LaunchPlace(s, Head);
      LaunchCounts(s, Head);
      hide Launch, Enabled;
    } else {
      MoveAnswers(s);
      hide Advance, Enabled;
    }
  }

  lemma AnsweredKept(s: State, ev: Event)
    requires Accounted(s.book) && Timed(s) && Answered(s) && Enabled(s, ev)
    ensures Answered(Apply(s, ev))
  {
    LedgerCases(s, ev);
    if ev.TakeResult? {
      StoredFailures(s.book);
      hide Accounted, Failures;
    } else {
      ReceivedSame(s, ev);
      assert Failures(Apply(s, ev).book) == Failures(s.book);
      assert s.place.Starting? ==> Failures(s.book) == {};
      if ev.Step? {
        if Looping(Advance(s).place) { StepAnswers(s); }
        hide Accounted, Advance, Failures;
      } else {
        hide Accounted, Failures;
      }
    }
  }

  /** Every event keeps the invariant. */
  lemma InvKept(s: State, ev: Event)
    requires Inv(s) && Enabled(s, ev)
    ensures Inv(Apply(s, ev))
  {
    Counts(s.book);
    hide Accounted, Timed, Outcomes, Settled, Answered, Enabled, Apply;
    AccountedKept(s, ev);
    TimedKept(s, ev);
    OutcomesKept(s, ev);
    SettledKept(s, ev);
    AnsweredKept(s, ev);
  }

  // ---------------------------------------------------------------------------
  // Termination and absence of deadlock

  function TimerWeight(t: Timer): nat {
    match t
    case Off => 0
    case Fired => 5
    case Armed => 6
  }

  function PlaceRank(p: Place): nat {
    match p
    case Returned => 0
    case Draining(_) => 1
    case Finishing => 2
    case Waiting => 3
    case Head => 4
    case Settling => 5
    case Deciding(_) => 6
    case Received(_) => 7
    case TimerLaunch => 7
    case Starting => 8
  }

  function WorkLeft(b: Ledger): int {
    20 * (b.n - b.next) + 6 * |b.running| + 5 * |b.channel|
  }

  function Rank(s: State): nat {
    TimerWeight(s.timer) + PlaceRank(s.place) + if s.canceled then 0 else 1
  }

  /** How many events can still happen, at most. */
  function Measure(s: State): int { WorkLeft(s.book) + Rank(s) }

  lemma WorkAfter(b: Ledger)
    requires Accounted(b)
    ensures WorkLeft(b) >= 0
    ensures b.next < b.n ==> WorkLeft(Started(b)) == WorkLeft(b) - 14
    ensures Ready(b) ==> WorkLeft(Stored(b)) == WorkLeft(b) - 5
  {
    assert b.next !in b.running;
  }

  lemma WorkAfterSend(b: Ledger, report: Report)
    requires report.index in b.running
    ensures WorkLeft(Sent(b, report)) == WorkLeft(b) - 1
  {
  }

  lemma LaunchRank(s: State, onward: Place)
    requires PlaceRank(onward) <= PlaceRank(s.place) && PlaceRank(s.place) > 1
    requires s.book.next < s.book.n || PlaceRank(onward) < PlaceRank(s.place)
    ensures var t := Launch(s, onward);
      if t.book.next == s.book.next then Rank(t) < Rank(s) else Rank(t) <= Rank(s) + 6
  {
  }

  lemma BeginRank(s: State)
    requires s.place.Starting?
    ensures var t := Begin(s); if t.book.next == s.book.next then Rank(t) < Rank(s) else Rank(t) <= Rank(s) + 6
  {
    if s.book.n > 0 && (s.book.next == 0 || (s.eager && s.book.next < s.book.n)) {
      hide Launch, Rank, Go;
      LaunchRank(s, Starting);
    } else {
      hide Launch;
    }
  }

  lemma FinishRank(s: State)
    requires s.place.Finishing?
    ensures Finish(s).book == s.book && Rank(Finish(s)) < Rank(s)
  {
  }

  lemma CancelRank(s: State)
    requires PlaceRank(s.place) > 1
    ensures FinishCanceled(s).book == s.book && Rank(FinishCanceled(s)) < Rank(s)
  {
  }

  lemma MoveRank(s: State)
    requires Enabled(s, Step) && !s.place.Starting? && !s.place.Deciding? && !s.place.TimerLaunch?
    ensures Advance(s).book == s.book && Rank(Advance(s)) < Rank(s)
  {
    if s.place.Finishing? { FinishRank(s); }
    if PlaceRank(s.place) > 1 { CancelRank(s); }
    hide Launch, Decide, Begin, Finish, FinishCanceled;
  }

  lemma WinnerRank(s: State, i: nat)
    requires s.place.Deciding?
    ensures FinishWinner(s, i).book == s.book && Rank(FinishWinner(s, i)) < Rank(s)
  {
  }

  lemma DecideRank(s: State)
    requires s.place.Deciding?
    ensures var t := Decide(s, s.place.report);
      if t.book.next == s.book.next then Rank(t) < Rank(s) else Rank(t) <= Rank(s) + 6
  {
    LaunchRank(s, Settling);
    WinnerRank(s, s.place.report.index);
    hide Launch, FinishWinner;
  }

  /** A step that launches nothing moves the coordinator on. */
  lemma StepRank(s: State)
    requires Enabled(s, Step)
    ensures var t := Advance(s); if t.book.next == s.book.next then Rank(t) < Rank(s) else Rank(t) <= Rank(s) + 6
  {
    hide Launch, Begin, Rank, Decide, FinishCanceled, Go, Finish;
    if s.place.Starting? {
      BeginRank(s);
    } else if s.place.Deciding? {
      DecideRank(s);
    } else if s.place.TimerLaunch? {
      LaunchRank(s, Head);
    } else {
      MoveRank(s);
    }
  }

  lemma OtherRank(s: State, ev: Event)
    requires Enabled(s, ev) && !ev.Step?
    ensures Rank(Apply(s, ev)) <= Rank(s) + (if ev.TakeResult? then 4 else if ev.Send? then 0 else -1)
  {
    hide Sent, Stored;
  }

  /** Every event brings the call closer to its end. */
  lemma Decreases(s: State, ev: Event)
    requires Accounted(s.book) && Enabled(s, ev)
    ensures 0 <= Measure(Apply(s, ev)) < Measure(s)
  {
    AccountedKept(s, ev);
    WorkAfter(Apply(s, ev).book);
    if ev.Step? {
      StepDecreases(s);
      hide Accounted, Advance, Enabled, Measure;
    } else {
      OtherDecreases(s, ev);
      hide Accounted, Apply, Enabled, WorkLeft, Rank;
    }
  }

  lemma StepDecreases(s: State)
    requires Accounted(s.book) && Enabled(s, Step)
    ensures Measure(Advance(s)) < Measure(s)
  {
    WorkAfter(s.book);
    StepLedger(s);
    StepRank(s);
    hide Accounted, Advance, Enabled, Rank, WorkLeft, Ready;
  }

  lemma OtherDecreases(s: State, ev: Event)
    requires Accounted(s.book) && Enabled(s, ev) && !ev.Step?
    ensures Measure(Apply(s, ev)) < Measure(s)
  {
    WorkAfter(s.book);
    OtherRank(s, ev);
    if ev.Send? { WorkAfterSend(s.book, ev.report); }
    hide Accounted, Rank, WorkLeft, Sent, Stored;
  }

  /** The launches and reports still to come: no event adds to them, and each launch and each receipt takes one away. */
  function Outstanding(b: Ledger): int { 2 * (b.n - b.next) + (b.started - b.completed) }

  lemma OutstandingDecreases(s: State, ev: Event)
    requires Accounted(s.book) && Enabled(s, ev)
    ensures var b := Apply(s, ev).book;
      && 0 <= Outstanding(b) <= Outstanding(s.book)
      && (b.next > s.book.next || b.completed > s.book.completed ==> Outstanding(b) == Outstanding(s.book) - 1)
  {
    AccountedKept(s, ev);
    Counts(Apply(s, ev).book);
    LedgerCases(s, ev);
    hide Accounted, Apply, Enabled;
  }

  /** At the loop head a report is outstanding, or a timer is set and can launch the next endpoint. */
  lemma LoopHeadWaitsForSomething(s: State)
    requires Inv(s) && (s.place.Head? || s.place.Waiting?)
    ensures s.book.running != {} || s.book.channel != [] || (s.timer != Off && s.book.next < s.book.n)
  {
    Counts(s.book);
    hide Accounted, Outcomes, Settled;
  }

  /** Until the call returns something other than a cancellation can always happen. */
  lemma NoDeadlock(s: State) returns (ev: Event)
    requires Inv(s) && !s.place.Returned?
    ensures Enabled(s, ev) && !ev.Cancel?
  {
    Counts(s.book);
    if s.place.Waiting? { LoopHeadWaitsForSomething(s); }
    hide Accounted, Outcomes, Settled, Timed;
    if !s.place.Waiting? && (s.place.Draining? ==> s.book.completed >= s.book.started) {
      ev := Step;
    } else if s.book.channel != [] {
      ev := TakeResult;
    } else if s.book.running != {} {
      var i :| i in s.book.running;
      ev := Send(Report(i, NOT_STARTED));
    } else if s.timer.Armed? {
      ev := Fire;
    } else {
      ev := TakeTimer;
    }
  }

  /** At the loop head, more endpoints have been launched than have failed, or all have. */
  lemma FailuresAreAnswered(s: State)
    requires Inv(s) && (s.place.Head? || s.place.Waiting?) && s.book.next < s.book.n
    ensures |Failures(s.book)| < s.book.next
  {
    hide Accounted, Timed, Outcomes, Settled, Failures;
  }

  /** A worker that finishes never waits for room on the channel. */
  lemma SendNeverBlocks(s: State, report: Report)
    requires Inv(s) && report.index in s.book.running
    ensures Enabled(s, Send(report))
  {
    Counts(s.book);
  }

  // ---------------------------------------------------------------------------
  // Runs

  ghost predicate Run(s: State, events: seq<Event>, t: State)
    decreases |events|
  {
    if |events| == 0 then s == t else Enabled(s, events[0]) && Run(Apply(s, events[0]), events[1..], t)
  }

  /** Every run keeps the invariant and is bounded. */
  lemma {:induction false} RunBounded(s: State, events: seq<Event>, t: State)
    requires Inv(s) && Run(s, events, t)
    ensures Inv(t) && 0 <= Measure(t) && |events| + Measure(t) <= Measure(s)
    decreases |events|
  {
    hide Accounted, Timed, Outcomes, Settled, Answered, Enabled, Apply, Measure;
    if |events| == 0 {
      MeasureNatural(s);
    } else {
      InvKept(s, events[0]);
      Decreases(s, events[0]);
      RunBounded(Apply(s, events[0]), events[1..], t);
    }
  }

  lemma MeasureNatural(s: State)
    requires Accounted(s.book)
    ensures 0 <= Measure(s)
  {
  }

  /** A run from the call can go on until it returns, and takes fewer than 20 n + 20 events. */
  lemma CallTerminates(n: nat, eager: bool, canceled: bool, deadline: bool, events: seq<Event>, t: State)
    requires Run(Initial(n, eager, canceled, deadline), events, t)
    ensures |events| < 20 * n + 20
    ensures !t.place.Returned? <==> exists ev :: Enabled(t, ev)
  {
    var s := Initial(n, eager, canceled, deadline);
    InitialInv(n, eager, canceled, deadline);
    RunBounded(s, events, t);
    assert Measure(s) <= 20 * n + 9;
    hide Accounted, Timed, Outcomes, Settled, Answered, Enabled, Measure, Run;
    if t.place.Returned? {
      forall ev ensures !Enabled(t, ev) { ReturnedIsFinal(t, ev); }
    } else {
      var ev := NoDeadlock(t);
    }
  }

  /** What a finished call reports. */
  lemma CallOutcome(n: nat, eager: bool, canceled: bool, deadline: bool, events: seq<Event>, t: State)
    requires Run(Initial(n, eager, canceled, deadline), events, t) && t.place.Returned?
    ensures t.book.running == {} && t.book.channel == []
      && t.book.completed == t.book.started == t.book.next <= t.book.n
    ensures |t.book.attempts| == t.book.n
    ensures forall i: nat :: i in t.book.received <==> i < t.book.next
    ensures forall i: nat :: t.book.next <= i < t.book.n ==> t.book.attempts[i] == NOT_STARTED
    ensures t.winner.Some? ==> t.winner.value < t.book.next && t.book.attempts[t.winner.value].status == Succeeded
    ensures t.winner.None? && !t.canceled ==>
              t.book.next == t.book.n && forall i: nat :: i < t.book.n ==> t.book.attempts[i].status != Succeeded
    ensures t.timedOut <==> t.winner.None? && t.deadline
  {
    InitialInv(n, eager, canceled, deadline);
    RunBounded(Initial(n, eager, canceled, deadline), events, t);
    Counts(t.book);
    hide Run;
  }

  // ---------------------------------------------------------------------------
  // Why endpoints are launched

  /** Launches that are due: one for a timer taken, one for a failure in hand. */
  function Due(s: State): nat {
    if s.place.TimerLaunch? || Unanswered(s.place) then 1 else 0
  }

  /** With a hedge delay, each launch after the first has its own cause. */
  predicate Patient(s: State, timers: nat) {
    !s.eager ==> s.book.next + Due(s) <= 1 + timers + |Failures(s.book)|
  }

  lemma LaunchDue(s: State, onward: Place)
    requires onward.Starting? || onward.Settling? || onward.Head?
    ensures var t := Launch(s, onward); t.book.next <= s.book.next + 1 && Due(t) == 0 && t.eager == s.eager
  {
  }

  lemma BeginDue(s: State)
    requires s.place.Starting? && !s.eager
    ensures var t := Begin(s);
      Due(t) == 0 && t.eager == s.eager && (t.book.next == s.book.next || (s.book.next == 0 && t.book.next <= 1))
  {
    LaunchDue(s, Starting);
    hide Launch;
  }

  lemma DecideDue(s: State)
    requires s.place.Deciding?
    ensures var t := Decide(s, s.place.report);
      Due(t) == 0 && t.eager == s.eager && t.book.next <= s.book.next + Due(s)
  {
    LaunchDue(s, Settling);
    hide Launch;
  }

  lemma OtherDue(s: State)
    requires Enabled(s, Step) && !s.place.Starting? && !s.place.Deciding? && !s.place.TimerLaunch?
    ensures var t := Advance(s); t.book == s.book && t.eager == s.eager && Due(t) <= Due(s)
  {
    hide Launch, Begin, Decide;
  }

  /** A step of the coordinator uses up a cause for each launch, but for the first. */
  lemma StepDue(s: State)
    requires Enabled(s, Step) && !s.eager
    ensures var t := Advance(s);
      t.eager == s.eager && (t.book.next + Due(t) <= s.book.next + Due(s) || t.book.next + Due(t) <= 1)
  {
    if s.place.Starting? {
      BeginDue(s);
      hide Begin, Enabled, Due;
    } else if s.place.Deciding? {
      DecideDue(s);
      hide Decide, Enabled, Due;
    } else if s.place.TimerLaunch? {
      LaunchDue(s, Head);
      hide Launch, Enabled;
    } else {
      OtherDue(s);
      hide Advance, Enabled, Due;
    }
  }

  lemma PatientKept(s: State, ev: Event, timers: nat)
    requires Accounted(s.book) && Enabled(s, ev) && Patient(s, timers)
    ensures Patient(Apply(s, ev), timers + if ev.TakeTimer? then 1 else 0)
  {
    if !s.eager {
      LedgerCases(s, ev);
      if ev.TakeResult? {
        StoredFailures(s.book);
        hide Accounted, Failures;
      } else {
        ReceivedSame(s, ev);
        assert Failures(Apply(s, ev).book) == Failures(s.book);
        if ev.Step? {
          StepDue(s);
          hide Accounted, Advance, Failures, Due;
        } else {
          hide Accounted, Failures;
        }
      }
    }
  }

  function TimersTaken(events: seq<Event>): nat {
    if |events| == 0 then 0 else (if events[0].TakeTimer? then 1 else 0) + TimersTaken(events[1..])
  }

  lemma {:induction false} PatientRun(s: State, events: seq<Event>, t: State, timers: nat)
    requires Inv(s) && Patient(s, timers) && Run(s, events, t)
    ensures Patient(t, timers + TimersTaken(events))
    decreases |events|
  {
    hide Accounted, Timed, Outcomes, Settled, Answered, Enabled, Apply, Patient;
    if |events| > 0 {
      InvKept(s, events[0]);
      PatientKept(s, events[0], timers);
      PatientRun(Apply(s, events[0]), events[1..], t, timers + if events[0].TakeTimer? then 1 else 0);
    }
  }

  /** With a hedge delay, no more endpoints are launched than one, and one per expiry taken and definite failure. */
  lemma LaunchesHaveCauses(n: nat, canceled: bool, deadline: bool, events: seq<Event>, t: State)
    requires Run(Initial(n, false, canceled, deadline), events, t)
    ensures t.book.started <= 1 + TimersTaken(events) + |Failures(t.book)|
  {
    InitialInv(n, false, canceled, deadline);
    RunBounded(Initial(n, false, canceled, deadline), events, t);
    EagerStays(Initial(n, false, canceled, deadline), events, t);
    assert Accounted(t.book);
    hide Inv, Run, Failures, Accounted;
    PatientRun(Initial(n, false, canceled, deadline), events, t, 0);
  }

  lemma {:induction false} EagerStays(s: State, events: seq<Event>, t: State)
    requires Run(s, events, t)
    ensures t.eager == s.eager
    decreases |events|
  {
    if |events| > 0 {
      EventKeepsEager(s, events[0]);
      hide Apply, Enabled;
      EagerStays(Apply(s, events[0]), events[1..], t);
    }
  }

  lemma EventKeepsEager(s: State, ev: Event)
    requires Enabled(s, ev)
    ensures Apply(s, ev).eager == s.eager
  {
    hide Started, Sent, Stored;
  }

  // ---------------------------------------------------------------------------
  // Who wins

  /** The parent is canceled, and no success has been accepted or is about to be. */
  predicate Doomed(s: State) {
    s.canceled && s.winner.None? && !s.place.Deciding? && s.place != Draining(true)
  }

  /** Cancellation takes precedence: once noticed in time, whatever succeeds later does not win. */
  lemma {:induction false} CancellationWins(s: State, events: seq<Event>, t: State)
    requires Inv(s) && Doomed(s) && Run(s, events, t)
    ensures Doomed(t) && (t.place.Returned? ==> (t.timedOut <==> t.deadline))
    decreases |events|
  {
    hide Accounted, Timed, Outcomes, Answered;
    if |events| > 0 {
      InvKept(s, events[0]);
      StaysDoomed(s, events[0]);
      CancellationWins(Apply(s, events[0]), events[1..], t);
    }
  }

  lemma StaysDoomed(s: State, ev: Event)
    requires Doomed(s) && Enabled(s, ev)
    ensures Doomed(Apply(s, ev))
  {
  }

  /** The last report taken before event k of a run from s is the first success of endpoint i. */
  ghost predicate WonAt(s: State, events: seq<Event>, k: nat, u: State, i: nat) {
    && k < |events| && Run(s, events[..k], u) && events[k] == TakeResult
    && u.place.Waiting? && !u.canceled && Ready(u.book) && NoSuccess(u)
    && u.book.channel[0].index == i && u.book.channel[0].result.status == Succeeded
  }

  /** The report in hand is a success of endpoint i that will be accepted. */
  predicate Winning(s: State, i: nat) {
    && (s.place.Received? || s.place.Deciding?)
    && s.place.report.index == i && s.place.report.result.status == Succeeded
    && (s.place.Received? ==> !s.canceled)
  }

  /** One event before the report in hand wins, or before the winner is set. */
  lemma WinningBefore(s: State, ev: Event, i: nat)
    requires Inv(s) && s.winner.None? && Enabled(s, ev)
    requires var t := Apply(s, ev); t.winner == Some(i) || (t.winner.None? && Winning(t, i))
    ensures Winning(s, i) ||
            (s.place.Waiting? && ev == TakeResult && !s.canceled && NoSuccess(s)
             && s.book.channel[0].index == i && s.book.channel[0].result.status == Succeeded)
  {
    hide Accounted, Timed, Settled, Answered;
  }

  lemma WinnerStays(s: State, ev: Event)
    requires Inv(s) && s.winner.Some? && Enabled(s, ev)
    ensures Apply(s, ev).winner == s.winner
  {
    hide Accounted, Timed, Settled, Answered;
  }

  lemma {:induction false} WinnerRemains(s: State, events: seq<Event>, t: State)
    requires Inv(s) && s.winner.Some? && Run(s, events, t)
    ensures t.winner == s.winner
    decreases |events|
  {
    hide Accounted, Timed, Outcomes, Settled, Answered, Apply, Enabled;
    if |events| > 0 {
      InvKept(s, events[0]);
      WinnerStays(s, events[0]);
      WinnerRemains(Apply(s, events[0]), events[1..], t);
    }
  }

  /** The winner is the first success received, taken while the parent was not canceled. */
  lemma {:induction false} WinnerIsFirst(s: State, events: seq<Event>, t: State)
    requires Inv(s) && s.winner.None? && Run(s, events, t) && t.winner.Some?
    ensures Winning(s, t.winner.value) || exists k, u :: WonAt(s, events, k, u, t.winner.value)
    decreases |events|
  {
    hide Accounted, Timed, Outcomes, Settled, Answered, Apply, Enabled, Winning, NoSuccess, Ready;
    var i, ev := t.winner.value, events[0];
    var u := Apply(s, ev);
    InvKept(s, ev);
    if u.winner.Some? {
      WinnerRemains(u, events[1..], t);
    } else {
      WinnerIsFirst(u, events[1..], t);
    }
    if u.winner.Some? || Winning(u, i) {
      WinningBefore(s, ev, i);
      if !Winning(s, i) { WonHere(s, events, i); }
    } else {
      var k, w :| WonAt(u, events[1..], k, w, i);
      WonLater(s, events, k, w, i);
    }
  }

  lemma WonHere(s: State, events: seq<Event>, i: nat)
    requires |events| > 0 && events[0] == TakeResult && Enabled(s, TakeResult)
    requires s.place.Waiting? && !s.canceled && NoSuccess(s)
    requires s.book.channel[0].index == i && s.book.channel[0].result.status == Succeeded
    ensures WonAt(s, events, 0, s, i)
  {
  }

  lemma WonLater(s: State, events: seq<Event>, k: nat, u: State, i: nat)
    requires |events| > 0 && Enabled(s, events[0]) && WonAt(Apply(s, events[0]), events[1..], k, u, i)
    ensures WonAt(s, events, k + 1, u, i)
  {
    hide Apply, Enabled, NoSuccess, Ready;
    assert events[..k + 1][1..] == events[1..][..k];
  }

  /** The same of a whole call. */
  lemma CallWinner(n: nat, eager: bool, canceled: bool, deadline: bool, events: seq<Event>, t: State)
    requires var s := Initial(n, eager, canceled, deadline); Run(s, events, t) && t.winner.Some?
    ensures exists k, u :: WonAt(Initial(n, eager, canceled, deadline), events, k, u, t.winner.value)
  {
    InitialInv(n, eager, canceled, deadline);
    hide Inv, Run, WonAt;
    WinnerIsFirst(Initial(n, eager, canceled, deadline), events, t);
  }

  // ---------------------------------------------------------------------------
  // Reports are neither lost, repeated nor overwritten

  /** The report is on the channel or stored. */
  predicate Kept(b: Ledger, report: Report) {
    report in b.channel
    || (report.index in b.received && report.index < |b.attempts| && b.attempts[report.index] == report.result)
  }

  /** The worker of endpoint i has finished. */
  predicate Finished(b: Ledger, i: nat) { i < b.next && i !in b.running }

  lemma StoredKeeps(b: Ledger, report: Report)
    requires Accounted(b) && Ready(b) && Kept(b, report)
    ensures Kept(Stored(b), report)
  {
    Counts(b);
    if report in b.channel && report != b.channel[0] {
      var k :| 0 <= k < |b.channel| && b.channel[k] == report;
      assert Stored(b).channel[k - 1] == report;
    }
  }

  lemma EventKeeps(s: State, ev: Event, report: Report)
    requires Accounted(s.book) && Enabled(s, ev)
    ensures Kept(s.book, report) || ev == Send(report) ==> Kept(Apply(s, ev).book, report)
  {
    if Ready(s.book) && Kept(s.book, report) { StoredKeeps(s.book, report); }
    LedgerCases(s, ev);
    if ev.Send? {
      SendLedger(s, ev.report);
      assert Sent(s.book, ev.report).channel == s.book.channel + [ev.report];
    }
    hide Accounted, Apply, Enabled, Stored;
  }

  lemma SendLedger(s: State, report: Report)
    requires Enabled(s, Send(report))
    ensures Apply(s, Send(report)).book == Sent(s.book, report)
  {
  }

  lemma EventFinishes(s: State, ev: Event, i: nat)
    requires Accounted(s.book) && Enabled(s, ev)
    ensures Finished(s.book, i) || (ev.Send? && ev.report.index == i) ==> Finished(Apply(s, ev).book, i)
  {
    assert forall k :: k in s.book.running ==> k < s.book.next;
    LedgerCases(s, ev);
    if ev.Send? { SendLedger(s, ev.report); }
    hide Accounted, Apply, Enabled;
  }

  /** Along a run, each worker reports at most once, and its report is what is stored. */
  lemma {:induction false} ReportedOnce(s: State, events: seq<Event>, t: State, report: Report)
    requires Inv(s) && Run(s, events, t)
    ensures Kept(s.book, report) || Send(report) in events ==> Kept(t.book, report)
    ensures Finished(s.book, report.index) ==>
      forall k :: 0 <= k < |events| && events[k].Send? ==> events[k].report.index != report.index
    decreases |events|
  {
    hide Accounted, Timed, Outcomes, Settled, Answered, Apply, Kept;
    if |events| > 0 {
      var u := Apply(s, events[0]);
      InvKept(s, events[0]);
      EventKeeps(s, events[0], report);
      EventFinishes(s, events[0], report.index);
      ReportedOnce(u, events[1..], t, report);
      assert forall k :: 1 <= k < |events| ==> events[k] == events[1..][k - 1];
    }
  }

  /** No two Send events of a run have the same index. */
  lemma {:induction false} SentOnce(s: State, events: seq<Event>, t: State, a: nat, b: nat)
    requires Inv(s) && Run(s, events, t) && a < b < |events| && events[a].Send? && events[b].Send?
    ensures events[a].report.index != events[b].report.index
    decreases |events|
  {
    hide Accounted, Timed, Outcomes, Settled, Answered, Enabled, Apply, Kept;
    InvKept(s, events[0]);
    var u := Apply(s, events[0]);
    if a == 0 {
      EventFinishes(s, events[0], events[0].report.index);
      ReportedOnce(u, events[1..], t, events[0].report);
      assert events[b] == events[1..][b - 1];
    } else {
      SentOnce(u, events[1..], t, a - 1, b - 1);
    }
  }

  /** When the call returns, every report its workers sent is stored as it was sent. */
  lemma EveryReportStored(n: nat, eager: bool, canceled: bool, deadline: bool, events: seq<Event>, t: State,
                          report: Report)
    requires Run(Initial(n, eager, canceled, deadline), events, t) && t.place.Returned? && Send(report) in events
    ensures report.index < |t.book.attempts| && t.book.attempts[report.index] == report.result
  {
    InitialInv(n, eager, canceled, deadline);
    ReportedOnce(Initial(n, eager, canceled, deadline), events, t, report);
    CallOutcome(n, eager, canceled, deadline, events, t);
    hide Run;
  }
}
