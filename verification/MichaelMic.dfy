/** Michael MIC failures and TKIP countermeasures (events.c; section 8.3.2.4 of IEEE Std
    802.11-2007) as a machine over timed events. Times are in microseconds. */
module MichaelMic {
  import opened Octets

  const SECOND: nat := 1_000_000
  const MINUTE: nat := 60 * SECOND

  /** last is the second of the last failure, 0 for none; the two timers hold the times at
      which they expire; reports lists the MIC error reports sent so far, true for pairwise. */
  datatype Mic = Mic(
    now: nat, countermeasures: bool, last: nat,
    pending: bool, pendingPairwise: bool, seen: nat,
    stopTimer: Option<nat>, reportTimer: Option<nat>,
    reports: seq<bool>)

  /** A failure at a time; delay is the random time a report would be put off, less than a
      minute. Rekeyed: a new PTK is in use. */
  datatype Event =
    | Failure(at: nat, pairwise: bool, delay: nat)
    | StopTimer(at: nat)
    | ReportTimer(at: nat)
    | Rekeyed(at: nat)

  function Sec(t: nat): nat
  {
    t / SECOND
  }

  /** The failure starts countermeasures. */
  predicate Triggers(s: Mic, t: nat)
  {
    (s.last != 0 && Sec(t) - s.last <= 60) || s.pending
  }

  /** wpa_supplicant_event_michael_mic_failure; delayed is CONFIG_DELAYED_MIC_ERROR_REPORT. */
  function Failed(s: Mic, delayed: bool, t: nat, pairwise: bool, delay: nat): Mic
  {
    var r :=
      if Triggers(s, t) then
        s.(countermeasures := true, stopTimer := Some(t + MINUTE),
           reports := s.reports + (if s.pending then [s.pendingPairwise] else []) + [pairwise])
      else if delayed && s.seen > 0 then
        s.(pending := true, pendingPairwise := pairwise, reportTimer := Some(t + delay))
      else s.(reports := s.reports + [pairwise]);
    r.(now := t, last := Sec(t), seen := s.seen + 1)
  }

  function Step(s: Mic, delayed: bool, e: Event): Mic
  {
    match e
    case Failure(t, p, d) => Failed(s, delayed, t, p, d)
    case StopTimer(t) => s.(now := t, countermeasures := false, stopTimer := None)
    case ReportTimer(t) =>
      var r := s.(now := t, reportTimer := None, pending := false);
      if s.pending then r.(reports := s.reports + [s.pendingPairwise]) else r
    case Rekeyed(t) => s.(now := t, seen := 0)
  }

  /** Time goes on, and timers fire when they expire: nothing happens after that time before
      they have fired. */
  predicate Legal(s: Mic, e: Event)
  {
    && s.now <= e.at
    && (s.stopTimer.Some? ==> e.at <= s.stopTimer.value)
    && (s.reportTimer.Some? ==> e.at <= s.reportTimer.value)
    && (e.StopTimer? ==> s.stopTimer == Some(e.at))
    && (e.ReportTimer? ==> s.reportTimer == Some(e.at))
    && (e.Failure? ==> e.delay < MINUTE)
  }

  function Run(s: Mic, delayed: bool, es: seq<Event>): Mic
  {
    if es == [] then s else Step(Run(s, delayed, es[..|es| - 1]), delayed, es[|es| - 1])
  }

  predicate LegalRun(s: Mic, delayed: bool, es: seq<Event>)
  {
    es == [] || (LegalRun(s, delayed, es[..|es| - 1]) && Legal(Run(s, delayed, es[..|es| - 1]), es[|es| - 1]))
  }

  /** The clock shows the time of the latest event. */
  lemma ClockIsLast(s: Mic, delayed: bool, es: seq<Event>)
    ensures Run(s, delayed, es).now == if es == [] then s.now else es[|es| - 1].at
  {
  }

  /** The state before the first failure. The clock counts from 1970, so it is past its first
      second. */
  predicate Initial(s: Mic)
  {
    && s.now >= SECOND && !s.countermeasures && s.last == 0 && !s.pending && s.seen == 0
    && s.stopTimer.None? && s.reportTimer.None? && s.reports == []
  }

  // ---- History ----

  /** Time of the latest failure. */
  function LastFailure(es: seq<Event>): Option<nat>
  {
    if es == [] then None
    else if es[|es| - 1].Failure? then Some(es[|es| - 1].at)
    else LastFailure(es[..|es| - 1])
  }

  /** Time of the latest failure that came at most 60 seconds, counted in whole seconds of the
      clock, after another one. */
  function LastTrigger(es: seq<Event>): Option<nat>
  {
    if es == [] then None
    else
      var n := |es| - 1;
      if es[n].Failure? && Close(es[..n], es[n].at) then Some(es[n].at) else LastTrigger(es[..n])
  }

  predicate Close(es: seq<Event>, t: nat)
  {
    LastFailure(es).Some? && Sec(t) - Sec(LastFailure(es).value) <= 60
  }

  /** What holds after every legal run. */
  ghost predicate Inv(s: Mic, es: seq<Event>)
  {
    && s.now >= SECOND
    && (LastFailure(es).Some? ==> SECOND <= LastFailure(es).value <= s.now && s.last == Sec(LastFailure(es).value))
    && (LastFailure(es).None? ==> s.last == 0 && s.seen == 0)
    && (s.pending <==> s.reportTimer.Some?)
    && (s.pending ==> LastFailure(es).Some? && s.now <= s.reportTimer.value < LastFailure(es).value + MINUTE)
    && (s.countermeasures <==> s.stopTimer.Some?)
    && (s.countermeasures ==> LastTrigger(es).Some? && s.stopTimer.value == LastTrigger(es).value + MINUTE && s.now <= s.stopTimer.value)
  }

  lemma SecBounds(t: nat)
    ensures Sec(t) * SECOND <= t < (Sec(t) + 1) * SECOND
    ensures t >= SECOND ==> Sec(t) >= 1
  {
  }

  /** A report that is still pending belongs to a failure less than a minute ago, so it never
      makes a difference. */
  lemma TriggersIffClose(s: Mic, es: seq<Event>, t: nat)
    requires Inv(s, es) && s.now <= t && (s.reportTimer.Some? ==> t <= s.reportTimer.value)
    ensures Triggers(s, t) <==> Close(es, t)
  {
    hide Sec;
    SecBounds(t);
    if LastFailure(es).Some? {
      SecBounds(LastFailure(es).value);
    }
  }

  lemma HistoryStep(es: seq<Event>, e: Event)
    ensures LastFailure(es + [e]) == if e.Failure? then Some(e.at) else LastFailure(es)
    ensures LastTrigger(es + [e]) == if e.Failure? && Close(es, e.at) then Some(e.at) else LastTrigger(es)
  {
    assert (es + [e])[..|es|] == es;
  }

  lemma StepInv(s: Mic, delayed: bool, es: seq<Event>, e: Event)
    requires Inv(s, es) && Legal(s, e)
    ensures Inv(Step(s, delayed, e), es + [e])
  {
    hide Close, LastFailure, LastTrigger, Sec;
    HistoryStep(es, e);
    if e.Failure? {
      TriggersIffClose(s, es, e.at);
      SecBounds(e.at);
    }
  }

  lemma {:induction false} RunInv(s: Mic, delayed: bool, es: seq<Event>)
    requires Initial(s) && LegalRun(s, delayed, es)
    ensures Inv(Run(s, delayed, es), es)
  {
    hide Inv, Step, Legal;
    if es == [] {
      Start(s);
    } else {
      var n := |es| - 1;
      RunInv(s, delayed, es[..n]);
      StepInv(Run(s, delayed, es[..n]), delayed, es[..n], es[n]);
      assert es[..n] + [es[n]] == es;
    }
  }

  lemma Start(s: Mic)
    requires Initial(s)
    ensures Inv(s, [])
  {
  }

  // ---- Main results ----

  /** In every legal run, a failure starts countermeasures exactly when the previous failure
      was at most 60 seconds earlier. */
  lemma FailureTriggersIff(s: Mic, delayed: bool, es: seq<Event>, e: Event)
    requires Initial(s) && LegalRun(s, delayed, es) && Legal(Run(s, delayed, es), e) && e.Failure?
    ensures Triggers(Run(s, delayed, es), e.at) <==> Close(es, e.at)
    ensures Close(es, e.at) ==> Step(Run(s, delayed, es), delayed, e).countermeasures
  {
    hide Run, LegalRun, Inv, Close;
    RunInv(s, delayed, es);
    TriggersIff(Run(s, delayed, es), es, e);
  }

  lemma TriggersIff(s: Mic, es: seq<Event>, e: Event)
    requires Inv(s, es) && Legal(s, e)
    ensures Triggers(s, e.at) <==> Close(es, e.at)
  {
    hide Close, Triggers, Sec;
    TriggersIffClose(s, es, e.at);
  }

  /** While countermeasures are on, the stop timer is set to one minute after the latest
      trigger and has not expired; otherwise it is not set. */
  lemma StopTimerIsArmed(s: Mic, delayed: bool, es: seq<Event>)
    requires Initial(s) && LegalRun(s, delayed, es)
    ensures var r := Run(s, delayed, es);
      if r.countermeasures then LastTrigger(es).Some? && r.stopTimer == Some(LastTrigger(es).value + MINUTE) && r.now <= r.stopTimer.value
      else r.stopTimer.None?
  {
    hide Run, LegalRun, LastTrigger, LastFailure;
    RunInv(s, delayed, es);
  }

  /** Whatever happens before its timer fires, any number of failures and triggers included, a
      pending report stays as it is, and then it is sent. */
  lemma {:induction false} PendingIsKept(s: Mic, delayed: bool, es: seq<Event>, t: nat)
    requires s.pending && forall i | 0 <= i < |es| :: !es[i].ReportTimer?
    ensures var r := Run(s, delayed, es);
      && r.pending && r.pendingPairwise == s.pendingPairwise && r.reportTimer == s.reportTimer
      && Run(s, delayed, es + [ReportTimer(t)]).reports == r.reports + [s.pendingPairwise]
  {
    hide Sec;
    if es != [] {
      PendingIsKept(s, delayed, es[..|es| - 1], t);
    }
    assert (es + [ReportTimer(t)])[..|es|] == es;
  }

  // ---- Reports ----

  /** Number of failures since the last new pairwise key. */
  function SinceRekeyed(es: seq<Event>): nat
  {
    if es == [] || es[|es| - 1].Rekeyed? then 0
    else SinceRekeyed(es[..|es| - 1]) + if es[|es| - 1].Failure? then 1 else 0
  }

  lemma {:induction false} SeenCounts(s: Mic, delayed: bool, es: seq<Event>)
    requires Initial(s)
    ensures Run(s, delayed, es).seen == SinceRekeyed(es)
  {
    hide Sec;
    if es != [] {
      SeenCounts(s, delayed, es[..|es| - 1]);
    }
  }

  /** A report is put off, by the time drawn, exactly if reports are delayed at all, the failure
      does not start countermeasures and is not the first with the pairwise key in use; all
      other reports go out at once. */
  lemma PutOffIff(s: Mic, delayed: bool, es: seq<Event>, e: Event)
    requires Initial(s) && LegalRun(s, delayed, es) && Legal(Run(s, delayed, es), e) && e.Failure?
    ensures var r := Run(s, delayed, es);
      var n := Step(r, delayed, e);
      if delayed && !Close(es, e.at) && SinceRekeyed(es) > 0 then
        n.pending && n.pendingPairwise == e.pairwise && n.reportTimer == Some(e.at + e.delay) && n.reports == r.reports
      else
        |n.reports| > |r.reports| && n.reports[|n.reports| - 1] == e.pairwise && n.pending == r.pending
  {
    hide Run, LegalRun, Inv, Close, Sec, SinceRekeyed;
    RunInv(s, delayed, es);
    TriggersIff(Run(s, delayed, es), es, e);
    SeenCounts(s, delayed, es);
  }

  /** Number of failures with this kind of key. */
  function Failures(es: seq<Event>, pairwise: bool): nat
  {
    if es == [] then 0
    else
      var e := es[|es| - 1];
      Failures(es[..|es| - 1], pairwise) + if e.Failure? && e.pairwise == pairwise then 1 else 0
  }

  /** Number of times that a pending report of this kind goes out at once because of another
      failure; it goes out once more when its timer fires. */
  function Repeats(s: Mic, delayed: bool, es: seq<Event>, pairwise: bool): nat
  {
    if es == [] then 0
    else
      var front, e := es[..|es| - 1], es[|es| - 1];
      var r := Run(s, delayed, front);
      Repeats(s, delayed, front, pairwise) + if e.Failure? && r.pending && r.pendingPairwise == pairwise then 1 else 0
  }

  function Waiting(s: Mic, pairwise: bool): nat
  {
    if s.pending && s.pendingPairwise == pairwise then 1 else 0
  }

  /** Number of reports of this kind that were sent. */
  function Sent(reports: seq<bool>, pairwise: bool): nat
  {
    if reports == [] then 0
    else Sent(reports[..|reports| - 1], pairwise) + if reports[|reports| - 1] == pairwise then 1 else 0
  }

  lemma SentMore(reports: seq<bool>, x: bool, pairwise: bool)
    ensures Sent(reports + [x], pairwise) == Sent(reports, pairwise) + if x == pairwise then 1 else 0
    ensures reports + [] == reports
  {
    assert (reports + [x])[..|reports|] == reports;
  }

  /** No report is lost or mixed up: for each kind of key, those sent and the one that waits are
      one for each failure, and one more for each failure that came while one was pending. */
  lemma {:induction false} ReportsAreCounted(s: Mic, delayed: bool, es: seq<Event>, pairwise: bool)
    requires Initial(s) && LegalRun(s, delayed, es)
    ensures var r := Run(s, delayed, es);
      Sent(r.reports, pairwise) + Waiting(r, pairwise) == Failures(es, pairwise) + Repeats(s, delayed, es, pairwise)
  {
    hide Step, Legal;
    if es != [] {
      var n := |es| - 1;
      ReportsAreCounted(s, delayed, es[..n], pairwise);
      RunInv(s, delayed, es[..n]);
      OneMoreReport(Run(s, delayed, es[..n]), delayed, es[..n], es[n], pairwise);
    }
  }

  lemma OneMoreReport(s: Mic, delayed: bool, es: seq<Event>, e: Event, pairwise: bool)
    requires Inv(s, es) && Legal(s, e)
    ensures var r := Step(s, delayed, e);
      Sent(r.reports, pairwise) + Waiting(r, pairwise) == Sent(s.reports, pairwise) + Waiting(s, pairwise)
        + (if e.Failure? && e.pairwise == pairwise then 1 else 0)
        + (if e.Failure? && s.pending && s.pendingPairwise == pairwise then 1 else 0)
  {
    hide LastFailure, LastTrigger, Sec, Sent;
    SentMore(s.reports, s.pendingPairwise, pairwise);
    if e.Failure? {
      SentMore(s.reports, e.pairwise, pairwise);
      SentMore(s.reports + [s.pendingPairwise], e.pairwise, pairwise);
    }
  }

  /** Two reports for one failure: failures at 1 s, 62 s and 63 s, the second one's report put
      off by 10 s; it is sent with the third failure and once more at 72 s. */
  lemma ReportSentTwice(s: Mic)
    requires Initial(s) && s.now == SECOND
    ensures var es := [Failure(SECOND, true, 0), Failure(62 * SECOND, false, 10 * SECOND),
                       Failure(63 * SECOND, true, 0), ReportTimer(72 * SECOND)];
      LegalRun(s, true, es) && Run(s, true, es).reports == [true, false, true, false]
  {
    hide Run, LegalRun;
    var a := [] + [Failure(SECOND, true, 0)];
    var b := a + [Failure(62 * SECOND, false, 10 * SECOND)];
    var c := b + [Failure(63 * SECOND, true, 0)];
    var d := c + [ReportTimer(72 * SECOND)];
    RunNone(s);
    RunOne(s, [], a[0]);
    RunOne(s, a, b[1]);
    RunOne(s, b, c[2]);
    RunOne(s, c, d[3]);
    assert Run(s, true, a).reports == [true];
    assert Run(s, true, b).pending && Run(s, true, b).reports == [true];
    assert Run(s, true, c).pending && Run(s, true, c).reports == [true] + [false] + [true];
    assert d == [a[0], b[1], c[2], d[3]];
  }

  lemma RunNone(s: Mic)
    ensures Run(s, true, []) == s && LegalRun(s, true, [])
  {
  }

  lemma RunOne(s: Mic, es: seq<Event>, e: Event)
    ensures Run(s, true, es + [e]) == Step(Run(s, true, es), true, e)
    ensures LegalRun(s, true, es + [e]) <==> LegalRun(s, true, es) && Legal(Run(s, true, es), e)
  {
    assert (es + [e])[..|es|] == es;
  }
}
