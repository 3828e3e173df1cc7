/** The fields of struct wpa_supplicant that the MIC failure handlers change. */
module MicObjects {
  import opened Octets
  import opened MichaelMic

  class Supplicant {
    const delayed: bool
    var now: nat
    var countermeasures: bool
    var lastMichaelMicError: nat
    var pendingMicErrorReport: bool
    var pendingMicErrorPairwise: bool
    var micErrorsSeen: nat
    var stopTimer: Option<nat>
    var reportTimer: Option<nat>
    var reports: seq<bool>

    constructor (delayedReports: bool, start: nat)
      requires start >= SECOND
      ensures delayed == delayedReports && Initial(State())
    {
      delayed := delayedReports;
      now := start;
      countermeasures, lastMichaelMicError, micErrorsSeen := false, 0, 0;
      pendingMicErrorReport, pendingMicErrorPairwise := false, false;
      stopTimer, reportTimer, reports := None, None, [];
    }

    function State(): Mic
      reads this
    {
      Mic(now, countermeasures, lastMichaelMicError, pendingMicErrorReport, pendingMicErrorPairwise,
        micErrorsSeen, stopTimer, reportTimer, reports)
    }

    /** wpa_sm_key_request */
    method KeyRequest(pairwise: bool)
      modifies this`reports
      ensures reports == old(reports) + [pairwise]
    {
      reports := reports + [pairwise];
    }

    /** wpa_supplicant_event_michael_mic_failure */
    method MichaelMicFailure(t: nat, pairwise: bool, delay: nat)
      modifies this
      ensures State() == Failed(old(State()), delayed, t, pairwise, delay)
    {
      hide Sec;
      if (lastMichaelMicError != 0 && Sec(t) - lastMichaelMicError <= 60) || pendingMicErrorReport {
        if pendingMicErrorReport {
          KeyRequest(pendingMicErrorPairwise);
        }
        KeyRequest(pairwise);
        countermeasures := true;
        stopTimer := Some(t + MINUTE);
      } else if delayed && micErrorsSeen > 0 {
        pendingMicErrorReport := true;
        pendingMicErrorPairwise := pairwise;
        reportTimer := Some(t + delay);
      } else {
        KeyRequest(pairwise);
      }
      now := t;
      lastMichaelMicError := Sec(t);
      micErrorsSeen := micErrorsSeen + 1;
    }

    /** wpa_supplicant_stop_countermeasures, called by its timer */
    method StopCountermeasures(t: nat)
      modifies this
      ensures State() == Step(old(State()), delayed, StopTimer(t))
    {
      now, stopTimer := t, None;
      if countermeasures {
        countermeasures := false;
      }
    }

    /** wpa_supplicant_delayed_mic_error_report, called by its timer */
    method DelayedMicErrorReport(t: nat)
      modifies this
      ensures State() == Step(old(State()), delayed, ReportTimer(t))
    {
      now, reportTimer := t, None;
      if !pendingMicErrorReport {
        return;
      }
      KeyRequest(pendingMicErrorPairwise);
      pendingMicErrorReport := false;
    }

    /** wpa_supplicant_set_key with a new TKIP pairwise key */
    method NewPairwiseKey(t: nat)
      modifies this
      ensures State() == Step(old(State()), delayed, Rekeyed(t))
    {
      now, micErrorsSeen := t, 0;
    }
  }
}
