/**
 The status refresh of the Windows shell: file events set a pending flag and restart a timer, and
 the timer's tick runs one refresh for everything that is pending.  Each step is one turn of the
 user-interface thread.
*/
module RefreshCoalescer {

  /** What happened so far: requests for a refresh, refreshes started and finished, and ticks that went on. */
  datatype Entry = Scheduled(provider: bool) | Started(provider: bool, byTick: bool) | Finished | Resumed

  /** resuming counts the ticks whose refresh is done and whose last lines have not run. */
  datatype Window = Window(refreshPending: bool, providerPending: bool, refreshing: bool, byTick: bool,
                           timerArmed: bool, resuming: nat, log: seq<Entry>)

  const START := Window(false, false, false, false, false, 0, [])

  datatype Step =
    | Schedule(provider: bool)
    | Tick
    | OtherRefresh          // a refresh asked for by another part of the window
    | RefreshDone
    | ResumeTick            // the lines after the awaited refresh

  predicate Enabled(w: Window, step: Step) {
    match step
    case Tick => w.timerArmed
    case RefreshDone => w.refreshing
    case ResumeTick => w.resuming > 0
    case Schedule(_) => true
    case OtherRefresh => true
  }

  function Do(w: Window, step: Step): Window
    requires Enabled(w, step)
  {
    match step
    case Schedule(provider) =>
      w.(refreshPending := true, providerPending := w.providerPending || provider, timerArmed := true,
         log := w.log + [Scheduled(provider)])
    case Tick =>
      if w.refreshing then w.(timerArmed := true)
      else Window(false, false, true, true, false, w.resuming, w.log + [Started(w.providerPending, true)])
    case OtherRefresh =>
      if w.refreshing then w
      else w.(refreshing := true, byTick := false, log := w.log + [Started(true, false)])
    case RefreshDone =>
      w.(refreshing := false, resuming := if w.byTick then w.resuming + 1 else w.resuming, log := w.log + [Finished])
    case ResumeTick =>
      w.(resuming := w.resuming - 1, timerArmed := w.timerArmed || w.refreshPending, log := w.log + [Resumed])
  }

  // ---------------------------------------------------------------------------------------------
  // No lost refresh
  // ---------------------------------------------------------------------------------------------

  /** A request that no refresh has been started after. */
  predicate Unanswered(log: seq<Entry>) {
    exists i :: 0 <= i < |log| && log[i].Scheduled? && forall j :: i < j < |log| ==> !log[j].Started?
  }

  predicate StartsProvider(e: Entry) {
    e.Started? && e.provider
  }

  /** A provider change that no provider refresh has been started after. */
  predicate ProviderUnanswered(log: seq<Entry>) {
    exists i :: 0 <= i < |log| && log[i] == Scheduled(true) && forall j :: i < j < |log| ==> !StartsProvider(log[j])
  }

  predicate NothingLost(w: Window) {
    && (w.refreshPending ==> w.timerArmed)
    && (w.providerPending ==> w.refreshPending)
    && (Unanswered(w.log) ==> w.refreshPending)
    && (ProviderUnanswered(w.log) ==> w.providerPending)
  }

  lemma UnansweredLast(log: seq<Entry>, e: Entry)
    ensures Unanswered(log + [e]) <==> e.Scheduled? || (Unanswered(log) && !e.Started?)
    ensures ProviderUnanswered(log + [e]) <==>
            e == Scheduled(true) || (ProviderUnanswered(log) && !StartsProvider(e))
  {
    var longer := log + [e];
    assert longer[|log|] == e;
    assert forall i :: 0 <= i < |log| ==> longer[i] == log[i];
    if Unanswered(log) && !e.Started? {
      var i :| 0 <= i < |log| && log[i].Scheduled? && forall j :: i < j < |log| ==> !log[j].Started?;
      assert longer[i].Scheduled?;
    }
    if Unanswered(longer) && !e.Scheduled? {
      var i :| 0 <= i < |longer| && longer[i].Scheduled? && forall j :: i < j < |longer| ==> !longer[j].Started?;
      assert i < |log| && log[i].Scheduled?;
      assert forall j :: i < j < |log| ==> log[j] == longer[j];
    }
    ProviderUnansweredLast(log, e);
  }

  lemma ProviderUnansweredLast(log: seq<Entry>, e: Entry)
    ensures ProviderUnanswered(log + [e]) <==>
            e == Scheduled(true) || (ProviderUnanswered(log) && !StartsProvider(e))
  {
    var longer := log + [e];
    assert longer[|log|] == e;
    assert forall i :: 0 <= i < |log| ==> longer[i] == log[i];
    if ProviderUnanswered(log) && !StartsProvider(e) {
      var i :| 0 <= i < |log| && log[i] == Scheduled(true) && forall j :: i < j < |log| ==> !StartsProvider(log[j]);
      assert longer[i] == Scheduled(true);
    }
    if ProviderUnanswered(longer) && e != Scheduled(true) {
      var i :| 0 <= i < |longer| && longer[i] == Scheduled(true)
               && forall j :: i < j < |longer| ==> !StartsProvider(longer[j]);
      assert i < |log| && log[i] == Scheduled(true);
      assert forall j :: i < j < |log| ==> log[j] == longer[j];
    }
  }

  lemma StepLosesNothing(w: Window, step: Step)
    requires NothingLost(w) && Enabled(w, step)
    ensures NothingLost(Do(w, step))
  {
    var log := Do(w, step).log;
    if log != w.log {
      UnansweredLast(w.log, log[|w.log|]);
      assert log == w.log + [log[|w.log|]];
    }
  }

  predicate Run(windows: seq<Window>, steps: seq<Step>) {
    && |windows| == |steps| + 1 && windows[0] == START
    && forall i :: 0 <= i < |steps| ==> Enabled(windows[i], steps[i]) && windows[i + 1] == Do(windows[i], steps[i])
  }

  /**
   Between turns, a request no refresh was started after has the pending flag set and the timer
   armed, and a provider change no provider refresh was started after is still remembered.
  */
  lemma {:induction false} NoRefreshIsLost(windows: seq<Window>, steps: seq<Step>, n: nat)
    requires Run(windows, steps) && n < |windows|
    ensures NothingLost(windows[n])
    ensures Unanswered(windows[n].log) ==> windows[n].refreshPending && windows[n].timerArmed
    ensures ProviderUnanswered(windows[n].log) ==> windows[n].providerPending && windows[n].timerArmed
  {
    if n > 0 {
      NoRefreshIsLost(windows, steps, n - 1);
      StepLosesNothing(windows[n - 1], steps[n - 1]);
    }
  }

  /**
   The next tick that finds no refresh running answers every request, provider changes included;
   a tick during a refresh leaves the timer armed, so that tick comes.
  */
  lemma NextFreeTickAnswersAll(windows: seq<Window>, steps: seq<Step>, n: nat)
    requires Run(windows, steps) && n < |windows|
    requires Unanswered(windows[n].log) || ProviderUnanswered(windows[n].log)
    ensures Enabled(windows[n], Tick)
    ensures var next := Do(windows[n], Tick);
            if windows[n].refreshing then next.timerArmed && next.log == windows[n].log
            else !Unanswered(next.log) && !ProviderUnanswered(next.log)
  {
    NoRefreshIsLost(windows, steps, n);
    UnansweredLast(windows[n].log, Started(windows[n].providerPending, true));
  }

  /** Once the running refresh is done, if there is one, the tick comes and answers every request. */
  lemma TickAfterRefreshAnswersAll(windows: seq<Window>, steps: seq<Step>, n: nat)
    requires Run(windows, steps) && n < |windows|
    requires Unanswered(windows[n].log) || ProviderUnanswered(windows[n].log)
    ensures var free := if windows[n].refreshing then Do(windows[n], RefreshDone) else windows[n];
            && Enabled(free, Tick)
            && var next := Do(free, Tick);
               next.refreshing && |next.log| == |free.log| + 1 && next.log[|free.log|].Started?
               && !Unanswered(next.log) && !ProviderUnanswered(next.log)
  {
    var w := windows[n];
    NoRefreshIsLost(windows, steps, n);
    var free := if w.refreshing then Do(w, RefreshDone) else w;
    UnansweredLast(w.log, Finished);
    UnansweredLast(free.log, Started(w.providerPending, true));
  }

  // ---------------------------------------------------------------------------------------------
  // The flags say what happened
  // ---------------------------------------------------------------------------------------------

  function Front(log: seq<Entry>): seq<Entry>
    requires log != []
  {
    log[..|log| - 1]
  }

  /** A refresh was started and has not finished. */
  predicate Running(log: seq<Entry>) {
    log != [] && (log[|log| - 1].Started? || (!log[|log| - 1].Finished? && Running(Front(log))))
  }

  /** The last refresh was started by a tick. */
  predicate LastByTick(log: seq<Entry>) {
    log != [] && if log[|log| - 1].Started? then log[|log| - 1].byTick else LastByTick(Front(log))
  }

  /** Some request, or some provider change, came since a tick last started a refresh. */
  predicate Asked(log: seq<Entry>, provider: bool) {
    log != [] &&
    match log[|log| - 1]
    case Scheduled(change) => change || !provider || Asked(Front(log), provider)
    case Started(_, byTick) => !byTick && Asked(Front(log), provider)
    case Finished => Asked(Front(log), provider)
    case Resumed => Asked(Front(log), provider)
  }

  /** How many refreshes started by ticks have finished without their tick going on. */
  function Waiting(log: seq<Entry>): int {
    if log == [] then 0
    else
      Waiting(Front(log))
      + match log[|log| - 1]
        case Finished => if LastByTick(Front(log)) then 1 else 0
        case Resumed => -1
        case Scheduled(_) => 0
        case Started(_, _) => 0
  }

  /** Refreshes never overlap, and a tick asks the provider exactly if a provider change came since the last tick. */
  predicate Orderly(log: seq<Entry>) {
    log == [] ||
    (&& Orderly(Front(log))
     && match log[|log| - 1]
        case Started(provider, byTick) => !Running(Front(log)) && provider == (byTick ==> Asked(Front(log), true))
        case Finished => Running(Front(log))
        case Resumed => Waiting(Front(log)) > 0
        case Scheduled(_) => true)
  }

  predicate Exact(w: Window) {
    && Orderly(w.log) && w.refreshing == Running(w.log) && (w.refreshing ==> w.byTick == LastByTick(w.log))
    && w.refreshPending == w.timerArmed == Asked(w.log, false) && w.providerPending == Asked(w.log, true)
    && w.resuming == Waiting(w.log)
  }

  lemma StepIsExact(w: Window, step: Step)
    requires Exact(w) && Enabled(w, step)
    ensures Exact(Do(w, step))
  {
    var log := Do(w, step).log;
    assert log != w.log ==> Front(log) == w.log;
  }

  /**
   In every run refreshes do not overlap, the timer is armed exactly while a request is pending, the
   flags say what was asked for since the last tick that started a refresh, and that is what the
   next such tick passes on.
  */
  lemma {:induction false} FlagsAreExact(windows: seq<Window>, steps: seq<Step>, n: nat)
    requires Run(windows, steps) && n < |windows|
    ensures Exact(windows[n])
  {
    if n > 0 {
      FlagsAreExact(windows, steps, n - 1);
      StepIsExact(windows[n - 1], steps[n - 1]);
    }
  }

  // ---------------------------------------------------------------------------------------------
  // The window object
  // ---------------------------------------------------------------------------------------------

  class MainWindow {
    var refreshPending: bool
    var providerRefreshPending: bool
    var refreshing: bool
    var timerArmed: bool
    ghost var byTick: bool
    ghost var resuming: nat
    ghost var log: seq<Entry>

    ghost function View(): Window
      reads this
    {
      Window(refreshPending, providerRefreshPending, refreshing, byTick, timerArmed, resuming, log)
    }

    constructor ()
      ensures View() == START
    {
      refreshPending, providerRefreshPending, refreshing, timerArmed := false, false, false, false;
      byTick, resuming, log := false, 0, [];
    }

    method ScheduleStatusRefresh(refreshProvider: bool)
      modifies this
      ensures View() == Do(old(View()), Schedule(refreshProvider))
    {
      refreshPending := true;
      providerRefreshPending := providerRefreshPending || refreshProvider;
      timerArmed := false;
      timerArmed := true;
      log := log + [Scheduled(refreshProvider)];
    }

    /** The part of the refresh before its first await. */
    method BeginRefresh(refreshProvider: bool, ghost fromTick: bool) returns (started: bool)
      modifies `refreshing, `byTick, `log
      ensures started == !old(refreshing)
      ensures View() == if started
                        then old(View()).(refreshing := true, byTick := fromTick, log := old(log) + [Started(refreshProvider, fromTick)])
                        else old(View())
    {
      if refreshing {
        return false;
      }
      refreshing := true;
      byTick := fromTick;
      log := log + [Started(refreshProvider, fromTick)];
      return true;
    }

    method TimerTick()
      requires timerArmed
      modifies this
      ensures View() == Do(old(View()), Tick)
    {
      timerArmed := false;
      if refreshing {
        timerArmed := true;
        return;
      }
      var refreshProvider := providerRefreshPending;
      refreshPending := false;
      providerRefreshPending := false;
      var _ := BeginRefresh(refreshProvider, true);
    }

    method RefreshFromElsewhere()
      modifies this
      ensures View() == Do(old(View()), OtherRefresh)
    {
      var _ := BeginRefresh(true, false);
    }

    method FinishRefresh()
      requires refreshing
      modifies this
      ensures View() == Do(old(View()), RefreshDone)
    {
      refreshing := false;
      resuming := if byTick then resuming + 1 else resuming;
      log := log + [Finished];
    }

    method AfterAwait()
      requires resuming > 0
      modifies this
      ensures View() == Do(old(View()), ResumeTick)
    {
      if refreshPending {
        timerArmed := true;
      }
      resuming := resuming - 1;
      log := log + [Resumed];
    }
  }
}
