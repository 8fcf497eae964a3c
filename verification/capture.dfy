/**
 The capture window as a state record. Start and Stop switch the repeating
 timer; each timer fire grabs the screen, shows the new screenshot, compares it
 with the stored previous one, keeps the new screenshot as the next baseline and
 queues the result for the similarity label. The program updates the label after
 storing the baseline; the model performs the whole cycle as one step. The
 screen contents are a parameter of each fire.
 */
module Capture {
  import opened Frames
  import opened Comparison

  /** What the similarity label shows: "N/A" until the first comparison. */
  datatype Label = NotAvailable | Showing(similarity: Similarity)

  /** `running` is whether the timer is active; `previous` is the baseline the next
      capture is compared with; `displayed` is the screenshot in the image area. */
  datatype Monitor = Monitor(running: bool, previous: Image, displayed: Image, shown: Label)

  /** The user-visible inputs: the two buttons and one timer fire with the screen
      contents at that moment. */
  datatype Event = StartClicked | StopClicked | TimerFired(screen: Image)

  /** A freshly opened window: timer stopped, label "N/A", the screen at launch on
      display and no baseline, which is the null image. */
  function Launch(screen: Image): (m: Monitor)
    ensures !m.running && m.shown == NotAvailable
    ensures m.previous == Empty && m.displayed == screen
  {
    Monitor(false, Empty, screen, NotAvailable)
  }

  /** The Start button: the timer runs; nothing else changes. */
  function StartCapture(m: Monitor): (m': Monitor)
    ensures m'.running
    ensures m'.previous == m.previous && m'.displayed == m.displayed && m'.shown == m.shown
  {
    m.(running := true)
  }

  /** The Stop button: the timer halts; nothing else changes. */
  function StopCapture(m: Monitor): (m': Monitor)
    ensures !m'.running
    ensures m'.previous == m.previous && m'.displayed == m.displayed && m'.shown == m.shown
  {
    m.(running := false)
  }

  /** Compare `screenshot` with the baseline, report the result, then make it the
      new baseline. */
  function CompareScreenshots(m: Monitor, screenshot: Image): (m': Monitor)
    ensures m'.shown == Showing(Compare(screenshot, m.previous))
    ensures m'.previous == screenshot
    ensures m'.running == m.running && m'.displayed == m.displayed
  {
    m.(shown := Showing(Compare(screenshot, m.previous)), previous := screenshot)
  }

  /** One capture: show the screenshot, then compare it with the baseline. */
  function CaptureScreen(m: Monitor, screenshot: Image): (m': Monitor)
    ensures m'.displayed == screenshot && m'.previous == screenshot
    ensures m'.shown == Showing(Compare(screenshot, m.previous))
    ensures m'.running == m.running
  {
    CompareScreenshots(m.(displayed := screenshot), screenshot)
  }

  /** One event. A stopped timer does not fire, so a fire while stopped is ignored. */
  function Step(m: Monitor, e: Event): (m': Monitor)
    ensures e.StartClicked? || e.StopClicked? ==>
              && m'.running == e.StartClicked?
              && m'.previous == m.previous && m'.displayed == m.displayed && m'.shown == m.shown
    ensures e.TimerFired? && !m.running ==> m' == m
    ensures e.TimerFired? && m.running ==>
              && m'.running
              && m'.previous == e.screen && m'.displayed == e.screen
              && m'.shown == Showing(Compare(e.screen, m.previous))
  {
    match e
    case StartClicked => StartCapture(m)
    case StopClicked => StopCapture(m)
    case TimerFired(screen) => if m.running then CaptureScreen(m, screen) else m
  }

  /** The state after a sequence of events, applied in order. */
  function Run(m: Monitor, events: seq<Event>): Monitor
    decreases |events|
  {
    if |events| == 0 then m
    else Step(Run(m, events[..|events| - 1]), events[|events| - 1])
  }

  /* ---------------------------------------------------------------------------
     A reference account of a trace that only follows the buttons
     ------------------------------------------------------------------------- */

  /** Whether the timer is on after `events`: the latest button press decides. */
  function RunningAfter(m: Monitor, events: seq<Event>): bool
    decreases |events|
  {
    if |events| == 0 then m.running
    else match events[|events| - 1]
      case StartClicked => true
      case StopClicked => false
      case TimerFired(_) => RunningAfter(m, events[..|events| - 1])
  }

  /** The screenshots actually taken during `events`, oldest first: the fires that
      happened while the timer was on. */
  function Captured(m: Monitor, events: seq<Event>): seq<Image>
    decreases |events|
  {
    if |events| == 0 then []
    else
      var before := events[..|events| - 1];
      match events[|events| - 1]
      case TimerFired(screen) =>
        Captured(m, before) + (if RunningAfter(m, before) then [screen] else [])
      case _ => Captured(m, before)
  }

  /** After any trace the timer state follows the buttons, the baseline is the last
      screenshot taken (or the original baseline if none was), the image area shows
      that screenshot, and the label compares the last two screenshots taken. */
  lemma {:induction false} RunAgreesWithCaptures(m: Monitor, events: seq<Event>)
    ensures Run(m, events).running == RunningAfter(m, events)
    ensures var shots := Captured(m, events);
            if |shots| == 0 then
              Run(m, events).previous == m.previous
              && Run(m, events).displayed == m.displayed
              && Run(m, events).shown == m.shown
            else
              && Run(m, events).previous == shots[|shots| - 1]
              && Run(m, events).displayed == shots[|shots| - 1]
              && Run(m, events).shown == Showing(Compare(shots[|shots| - 1],
                   if |shots| == 1 then m.previous else shots[|shots| - 2]))
    decreases |events|
  {
    if |events| > 0 {
      var before := events[..|events| - 1];
      RunAgreesWithCaptures(m, before);
    }
  }

  /** While the timer is off and Start is never pressed, nothing changes. */
  lemma {:induction false} StoppedIgnoresFires(m: Monitor, events: seq<Event>)
    requires !m.running
    requires forall i :: 0 <= i < |events| ==> !events[i].StartClicked?
    ensures Run(m, events) == m
    decreases |events|
  {
    if |events| > 0 {
      StoppedIgnoresFires(m, events[..|events| - 1]);
    }
  }

  /** Pressing Start and then Stop before the timer fires captures nothing and leaves
      the baseline, the image and the label as they were. */
  lemma StartThenStop(m: Monitor)
    ensures Run(m, [StartClicked, StopClicked]) == m.(running := false)
  {
  }

  /** The first capture after launch is compared with the null baseline, so any
      non-empty screenshot reports a size mismatch, shown as 0. */
  lemma FirstCaptureReportsZero(launch: Image, screenshot: Image)
    requires Area(screenshot) > 0
    ensures var m := CaptureScreen(StartCapture(Launch(launch)), screenshot);
            m.shown == Showing(SizeMismatch) && m.shown.similarity.Reported() == 0.0
            && m.previous == screenshot
  {
  }

  /** Two captures in a row: the second is compared with the first. */
  lemma {:induction false} SecondCaptureComparesWithFirst(m: Monitor, first: Image, second: Image)
    requires m.running
    ensures Run(m, [TimerFired(first), TimerFired(second)]).shown
            == Showing(Compare(second, first))
  {
    var events := [TimerFired(first), TimerFired(second)];
    assert events[..1] == [TimerFired(first)];
    assert events[..1][..0] == [];
    assert Run(m, events[..1]) == CaptureScreen(m, first);
  }
}
