/**
  The display rotation controller: `main` in C/display.c. It scans the
  command line for a debug flag, loads the screen configuration, builds the
  rotation table, opens the display, shows the hostname screen once through
  LCD_DisplayHostname and then renders the enabled screens round-robin
  forever.

  The configuration loader and the display handle are inputs; every call into
  other code is an Event of the trace. The endless loop is run for `fuel`
  iterations, after which the controller is still running at some cursor.
 */
module Display {
  import opened Screens
  import opened Events

  // ---------------------------------------------------------------------------
  // Command line (C/display.c:13-18)

  predicate IsDebugFlag(arg: string)
  {
    arg == "-d" || arg == "--debug"
  }

  /** Debug mode: some argument after the program name is a debug flag. */
  predicate DebugRequested(argv: seq<string>)
  {
    exists i :: 1 <= i < |argv| && IsDebugFlag(argv[i])
  }

  /** The loop over argv[1..argc). */
  method ScanDebugFlag(argv: seq<string>) returns (debug: bool)
    ensures debug <==> DebugRequested(argv)
  {
    debug := false;
    var i := 1;
    while i < |argv|
      invariant 1 <= i && (i <= |argv| || i == 1)
      invariant debug <==> exists j :: 1 <= j < i && IsDebugFlag(argv[j])
    {
      if IsDebugFlag(argv[i]) {
        debug := true;
      }
      i := i + 1;
    }
  }

  /** argv[0], the program name, never switches debug mode on or off. */
  lemma ProgramNameIgnored(argv: seq<string>, name: string)
    requires |argv| > 0
    ensures DebugRequested([name] + argv[1..]) <==> DebugRequested(argv)
  {
    var argv' := [name] + argv[1..];
    assert forall i :: 1 <= i < |argv| ==> argv'[i] == argv[i];
  }

  // ---------------------------------------------------------------------------
  // Rotation table (C/display.c:19-28)

  /**
    One line of the builder, `if (flag) display_order[display_count++] = id;`:
    the filled prefix grows by `id` exactly when the flag is set, and nothing
    else in the array changes.
   */
  method AppendScreen(displayOrder: array<int>, displayCount: int, flag: bool, id: int) returns (newCount: int)
    requires 0 <= displayCount <= displayOrder.Length
    requires flag ==> displayCount < displayOrder.Length
    modifies displayOrder
    ensures newCount == displayCount + (if flag then 1 else 0)
    ensures displayOrder[..newCount] == AppendIf(old(displayOrder[..displayCount]), flag, id)
    ensures forall k :: 0 <= k < displayOrder.Length && (k != displayCount || !flag) ==> displayOrder[k] == old(displayOrder[k])
  {
    newCount := displayCount;
    if flag {
      displayOrder[newCount] := id;
      newCount := newCount + 1;
      assert displayOrder[..newCount] == old(displayOrder[..displayCount]) + [id];
    }
  }

  /**
    Fills `display_order` in place, the four screens in priority order; the
    array has room for four entries and no write goes past the last of them.
   */
  method BuildDisplayOrder(c: DisplayConfig) returns (displayOrder: array<int>, displayCount: int)
    ensures fresh(displayOrder) && displayOrder.Length == ScreenCount
    ensures displayCount == EnabledCount(c)
    ensures displayOrder[..displayCount] == RotationTable(c)
  {
    displayOrder := new int[ScreenCount];
    displayCount := 0;
    displayCount := AppendScreen(displayOrder, displayCount, c.showTemperature, Temperature);
    displayCount := AppendScreen(displayOrder, displayCount, c.showCpuMemory, CpuMemory);
    displayCount := AppendScreen(displayOrder, displayCount, c.showSdMemory, SdMemory);
    displayCount := AppendScreen(displayOrder, displayCount, c.showHostname, Hostname);
  }

  // ---------------------------------------------------------------------------
  // Round-robin scheduler (C/display.c:42-50)

  /** The cursor after `k` steps of `idx = (idx + 1) % n` from 0. */
  function Cursor(n: int, k: nat): (idx: int)
    requires n > 0
    ensures 0 <= idx < n
  {
    if k == 0 then 0 else (Cursor(n, k - 1) + 1) % n
  }

  /** One loop iteration: render the screen, then three one-second sleeps. */
  function Dwell(screen: int): seq<Event>
  {
    [Display(screen), Sleep(DwellStepMicros), Sleep(DwellStepMicros), Sleep(DwellStepMicros)]
  }

  /** Each iteration renders exactly its own screen. */
  lemma RendersDwell(screen: int)
    ensures Renders(Dwell(screen)) == [screen]
  {
    var sleeps := [Sleep(DwellStepMicros), Sleep(DwellStepMicros), Sleep(DwellStepMicros)];
    assert Dwell(screen) == [Display(screen)] + sleeps;
    RendersAppend([Display(screen)], sleeps);
    RendersNone(sleeps);
    assert Renders([Display(screen)]) == [screen] by {
      assert [Display(screen)][1..] == [];
    }
  }

  /** The events of the first `k` iterations of the rotation loop over `table`. */
  function RotationEvents(table: seq<int>, k: nat): (r: seq<Event>)
    requires |table| > 0
    ensures |r| == 4 * k
  {
    if k == 0 then [] else RotationEvents(table, k - 1) + Dwell(table[Cursor(|table|, k - 1)])
  }

  /** The rotation loop never calls LCD_DisplayHostname (it may still render screen 3 through LCD_Display). */
  lemma {:induction false} RotationNeverCallsDisplayHostname(table: seq<int>, k: nat)
    requires |table| > 0
    ensures DisplayHostname !in RotationEvents(table, k)
  {
    if k > 0 {
      RotationNeverCallsDisplayHostname(table, k - 1);
    }
  }

  /**
    The loop `while (display_count > 0)`, cut off after `fuel` iterations.
    With an empty table the body never runs, so no modulo by zero happens.
   */
  method Rotate(displayOrder: array<int>, displayCount: int, fuel: nat) returns (trace: seq<Event>, idx: int)
    requires 0 <= displayCount <= displayOrder.Length
    ensures displayCount == 0 ==> trace == [] && idx == 0
    ensures displayCount > 0 ==>
      trace == RotationEvents(displayOrder[..displayCount], fuel) && idx == Cursor(displayCount, fuel)
  {
    trace := [];
    idx := 0;
    var step := 0;
    ghost var table := displayOrder[..displayCount];
    while displayCount > 0 && step < fuel
      invariant 0 <= step <= fuel
      invariant displayCount == 0 ==> step == 0 && trace == [] && idx == 0
      invariant displayCount > 0 ==> trace == RotationEvents(table, step) && idx == Cursor(displayCount, step)
      decreases fuel - step
    {
      assert displayOrder[idx] == table[Cursor(|table|, step)];
      trace := trace + Dwell(displayOrder[idx]);
      assert trace == RotationEvents(table, step + 1);
      idx := (idx + 1) % displayCount;
      step := step + 1;
    }
  }

  lemma MulAtLeast(d: int, n: int)
    requires n > 0
    ensures d >= 1 ==> d * n >= n
    ensures d <= -1 ==> d * n <= -n
  {
  }

  /** Euclidean remainder is unique: `q * n + r` with `0 <= r < n` leaves `r`. */
  lemma ModUnique(x: int, n: int, q: int, r: int)
    requires n > 0 && 0 <= r < n && x == q * n + r
    ensures x % n == r
  {
    var q', r' := x / n, x % n;
    assert x == q' * n + r';
    assert (q - q') * n == r' - r;
    MulAtLeast(q - q', n);
  }

  lemma ModSucc(i: nat, n: int)
    requires n > 0
    ensures (i % n + 1) % n == (i + 1) % n
  {
    var q, r := i / n, i % n;
    assert i == q * n + r;
    if r + 1 < n {
      ModUnique(i + 1, n, q, r + 1);
      ModUnique(r + 1, n, 0, r + 1);
    } else {
      ModUnique(i + 1, n, q + 1, 0);
      ModUnique(r + 1, n, 1, 0);
    }
  }

  /** The cursor after `k` steps is `k mod n`. */
  lemma {:induction false} CursorIsMod(n: int, k: nat)
    requires n > 0
    ensures Cursor(n, k) == k % n
  {
    if k > 0 {
      CursorIsMod(n, k - 1);
      ModSucc(k - 1, n);
      assert Cursor(n, k) == (Cursor(n, k - 1) + 1) % n;
    }
  }

  /** The screens rendered by the first `k` iterations: the table entry under the cursor each time. */
  function Schedule(table: seq<int>, k: nat): (s: seq<int>)
    requires |table| > 0
    ensures |s| == k
  {
    if k == 0 then [] else Schedule(table, k - 1) + [table[Cursor(|table|, k - 1)]]
  }

  /** The renders of the first `k` iterations are exactly Schedule(table, k). */
  lemma {:induction false} RotationRenders(table: seq<int>, k: nat)
    requires |table| > 0
    ensures Renders(RotationEvents(table, k)) == Schedule(table, k)
  {
    if k > 0 {
      var screen := table[Cursor(|table|, k - 1)];
      RotationRenders(table, k - 1);
      RendersAppend(RotationEvents(table, k - 1), Dwell(screen));
      RendersDwell(screen);
    }
  }

  /** The j-th scheduled render is `table[j mod |table|]`. */
  lemma {:induction false} ScheduleAt(table: seq<int>, k: nat, j: nat)
    requires |table| > 0 && j < k
    ensures Schedule(table, k)[j] == table[j % |table|]
  {
    if j < k - 1 {
      ScheduleAt(table, k - 1, j);
    } else {
      CursorIsMod(|table|, j);
    }
  }

  // ---------------------------------------------------------------------------
  // The whole of main (C/display.c:11-52)

  /** What load_display_config reports, and the configuration it leaves behind. */
  datatype LoadResult = LoadResult(loaded: bool, config: DisplayConfig)

  /** `return 0`, or still inside the endless loop with the given cursor. */
  datatype Outcome = Returned(status: int) | Running(cursor: int)

  datatype Run = Run(trace: seq<Event>, outcome: Outcome)

  /** The loader's result: it starts from the all-enabled defaults and is told the debug flag. */
  function LoadAttempt(argv: seq<string>, load: (DisplayConfig, bool) -> LoadResult): LoadResult
  {
    load(Defaults, DebugRequested(argv))
  }

  /** The configuration in force for the rest of the run. */
  function EffectiveConfig(argv: seq<string>, load: (DisplayConfig, bool) -> LoadResult): DisplayConfig
  {
    LoadAttempt(argv, load).config
  }

  /** The warning when loading failed, then opening the display. */
  function StartupEvents(result: LoadResult): seq<Event>
  {
    (if result.loaded then [] else [ConfigWarning]) + [Begin]
  }

  /** Settle delay, address lookup and, if enabled, the hostname screen held for three seconds. */
  function PrologueEvents(c: DisplayConfig): seq<Event>
  {
    [Sleep(SettleMicros), DiscoverIp]
    + (if c.showHostname then [DisplayHostname, Sleep(HostnameHoldMicros)] else [])
  }

  /**
    Reference behaviour of main: the events up to the end of the first `fuel`
    loop iterations, and how the run stands then. `handle` is the value of
    the driver's device handle after ssd1306_begin.
   */
  function ControllerRun(argv: seq<string>, load: (DisplayConfig, bool) -> LoadResult, handle: int, fuel: nat): Run
  {
    var result := LoadAttempt(argv, load);
    var table := RotationTable(result.config);
    if handle < 0 then
      Run(StartupEvents(result) + [DeviceError], Returned(0))
    else if |table| == 0 then
      Run(StartupEvents(result) + PrologueEvents(result.config), Returned(0))
    else
      Run(StartupEvents(result) + PrologueEvents(result.config) + RotationEvents(table, fuel),
          Running(Cursor(|table|, fuel)))
  }

  /** main, up to the end of the first `fuel` iterations of its loop. */
  method RunDisplay(argv: seq<string>, load: (DisplayConfig, bool) -> LoadResult, handle: int, fuel: nat)
    returns (trace: seq<Event>, outcome: Outcome)
    ensures Run(trace, outcome) == ControllerRun(argv, load, handle, fuel)
  {
    var debug := ScanDebugFlag(argv);
    var config := Defaults;
    var result := load(config, debug);
    config := result.config;
    trace := [];
    if !result.loaded {
      trace := trace + [ConfigWarning];
    }
    var displayOrder, displayCount := BuildDisplayOrder(config);
    trace := trace + [Begin];
    assert trace == StartupEvents(result);
    if handle < 0 {
      trace := trace + [DeviceError];
      return trace, Returned(0);
    }
    trace := trace + [Sleep(SettleMicros), DiscoverIp];
    if config.showHostname {
      trace := trace + [DisplayHostname, Sleep(HostnameHoldMicros)];
    }
    assert trace == StartupEvents(result) + PrologueEvents(config);
    var rotation, idx := Rotate(displayOrder, displayCount, fuel);
    trace := trace + rotation;
    outcome := if displayCount > 0 then Running(idx) else Returned(0);
  }

  // ---------------------------------------------------------------------------
  // Properties of a run

  /** Nothing before the rotation loop is a rotation render. */
  lemma StartupRendersNothing(result: LoadResult)
    ensures var prologue := StartupEvents(result) + PrologueEvents(result.config);
      forall k :: 0 <= k < |prologue| ==> !prologue[k].Display?
    ensures Renders(StartupEvents(result) + [DeviceError]) == []
    ensures Renders(StartupEvents(result) + PrologueEvents(result.config)) == []
  {
    RendersNone(StartupEvents(result) + [DeviceError]);
    RendersNone(StartupEvents(result) + PrologueEvents(result.config));
  }

  /** If the display does not open, main returns 0 before rendering anything. */
  lemma DeviceFailureRendersNothing(argv: seq<string>, load: (DisplayConfig, bool) -> LoadResult, handle: int, fuel: nat)
    requires handle < 0
    ensures ControllerRun(argv, load, handle, fuel).outcome == Returned(0)
    ensures Renders(ControllerRun(argv, load, handle, fuel).trace) == []
    ensures DisplayHostname !in ControllerRun(argv, load, handle, fuel).trace
  {
    StartupRendersNothing(LoadAttempt(argv, load));
  }

  /** Before the loop LCD_DisplayHostname is called once if `show_hostname` is set, and not at all otherwise. */
  lemma PrologueHostnameCount(result: LoadResult)
    ensures multiset(StartupEvents(result) + PrologueEvents(result.config))[DisplayHostname]
      == if result.config.showHostname then 1 else 0
  {
  }

  /** Joining a render-free prefix to a hostname-free suffix puts no render before an LCD_DisplayHostname call. */
  lemma RenderFreeThenHostnameFree(prefix: seq<Event>, rest: seq<Event>)
    requires forall k :: 0 <= k < |prefix| ==> !prefix[k].Display?
    requires DisplayHostname !in rest
    ensures var t := prefix + rest;
      forall i, j :: 0 <= i < j < |t| && t[i].Display? ==> t[j] != DisplayHostname
  {
  }

  /**
    With the display open, LCD_DisplayHostname is called exactly once if
    `show_hostname` is set and never otherwise, and no LCD_Display call comes
    before it. (The hostname screen can still appear again as entry 3 of the
    rotation, through LCD_Display.)
   */
  lemma HostnameShownOnceFirst(argv: seq<string>, load: (DisplayConfig, bool) -> LoadResult, handle: int, fuel: nat)
    requires handle >= 0
    ensures var t := ControllerRun(argv, load, handle, fuel).trace;
      multiset(t)[DisplayHostname] == if EffectiveConfig(argv, load).showHostname then 1 else 0
    ensures var t := ControllerRun(argv, load, handle, fuel).trace;
      forall i, j :: 0 <= i < j < |t| && t[i].Display? ==> t[j] != DisplayHostname
  {
    var result := LoadAttempt(argv, load);
    var table := RotationTable(result.config);
    var prologue := StartupEvents(result) + PrologueEvents(result.config);
    var rotation := if |table| > 0 then RotationEvents(table, fuel) else [];
    assert ControllerRun(argv, load, handle, fuel).trace == prologue + rotation;
    StartupRendersNothing(result);
    PrologueHostnameCount(result);
    if |table| > 0 {
      RotationNeverCallsDisplayHostname(table, fuel);
    }
    assert DisplayHostname !in rotation;
    assert multiset(prologue + rotation) == multiset(prologue) + multiset(rotation);
    RenderFreeThenHostnameFree(prologue, rotation);
  }

  /**
    With at least one screen enabled, the k-th rotation render is
    `display_order[k mod display_count]` and the cursor stays in range.
   */
  lemma RotationSchedule(argv: seq<string>, load: (DisplayConfig, bool) -> LoadResult, handle: int, fuel: nat)
    requires handle >= 0 && EnabledCount(EffectiveConfig(argv, load)) > 0
    ensures var table := RotationTable(EffectiveConfig(argv, load));
      var run := ControllerRun(argv, load, handle, fuel);
      && run.outcome == Running(fuel % |table|)
      && |Renders(run.trace)| == fuel
      && forall k :: 0 <= k < fuel ==> Renders(run.trace)[k] == table[k % |table|]
  {
    var result := LoadAttempt(argv, load);
    var table := RotationTable(result.config);
    var prologue := StartupEvents(result) + PrologueEvents(result.config);
    var rotation := RotationEvents(table, fuel);
    assert ControllerRun(argv, load, handle, fuel) == Run(prologue + rotation, Running(Cursor(|table|, fuel)));
    StartupRendersNothing(result);
    RendersAppend(prologue, rotation);
    RotationRenders(table, fuel);
    CursorIsMod(|table|, fuel);
    forall k | 0 <= k < fuel
      ensures Renders(rotation)[k] == table[k % |table|]
    {
      ScheduleAt(table, fuel, k);
    }
  }

  /** With a single screen enabled, the cursor is always 0 and that screen is shown every time. */
  lemma SingleScreenRepeats(argv: seq<string>, load: (DisplayConfig, bool) -> LoadResult, handle: int, fuel: nat)
    requires handle >= 0 && EnabledCount(EffectiveConfig(argv, load)) == 1
    ensures var table := RotationTable(EffectiveConfig(argv, load));
      var run := ControllerRun(argv, load, handle, fuel);
      && run.outcome == Running(0)
      && |Renders(run.trace)| == fuel
      && forall k :: 0 <= k < fuel ==> Renders(run.trace)[k] == table[0]
  {
    RotationSchedule(argv, load, handle, fuel);
  }

  /** With every screen disabled the loop never runs: nothing is rendered and main returns 0. */
  lemma EmptyRotationReturns(argv: seq<string>, load: (DisplayConfig, bool) -> LoadResult, handle: int, fuel: nat)
    requires handle >= 0 && EnabledCount(EffectiveConfig(argv, load)) == 0
    ensures ControllerRun(argv, load, handle, fuel).outcome == Returned(0)
    ensures Renders(ControllerRun(argv, load, handle, fuel).trace) == []
  {
    StartupRendersNothing(LoadAttempt(argv, load));
  }

  /** The same loader wrapped so that it always reports success. */
  function AlwaysLoaded(load: (DisplayConfig, bool) -> LoadResult): (DisplayConfig, bool) -> LoadResult
  {
    (c: DisplayConfig, debug: bool) => LoadResult(true, load(c, debug).config)
  }

  /**
    A failed load is not fatal: it adds the warning at the front of the trace
    and otherwise the run is the one with the same configuration loaded.
   */
  lemma FailedLoadOnlyWarns(argv: seq<string>, load: (DisplayConfig, bool) -> LoadResult, handle: int, fuel: nat)
    requires !LoadAttempt(argv, load).loaded
    ensures var run := ControllerRun(argv, load, handle, fuel);
      var quiet := ControllerRun(argv, AlwaysLoaded(load), handle, fuel);
      run.trace == [ConfigWarning] + quiet.trace && run.outcome == quiet.outcome
  {
  }
}
