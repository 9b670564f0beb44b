# Display rotation controller

A Dafny model of the controller that drives the small SSD1306 status panel of
this repository: `main` in `C/display.c`. The controller

1. scans the command line for `-d` / `--debug`;
2. starts from a configuration with all four screens enabled (temperature,
   CPU memory, SD memory, hostname), lets the configuration loader overwrite
   it, and prints a warning when the loader reports failure;
3. fills the four-slot array `display_order` with the ids (0, 1, 2, 3) of the
   enabled screens, in that priority order, counting them in `display_count`;
4. opens the display and returns if the driver's device handle is negative;
5. waits for the display to settle, looks up the IP address and, when the
   hostname screen is enabled, shows the hostname screen once for three seconds;
6. loops while `display_count > 0`: render `display_order[idx]`, sleep three
   times one second, `idx = (idx + 1) % display_count`.

Files and modules:

- `screens.dfy`, module `Screens`: the enable flags (`DisplayConfig`), the
  default `{1,1,1,1}`, the rotation table as a function of the flags
  (`RotationTable`, built step by step by `AppendIf` as the source does) and
  its inverse `FlagsOf`, with the proofs that the table is strictly
  increasing, holds exactly the enabled ids and determines the flags.
- `events.dfy`, module `Events`: the calls the controller makes into code
  outside `C/display.c`, as trace events, and `Renders`, the rotation renders
  of a trace.
- `display.dfy`, module `Display`: the imperative part. `ScanDebugFlag` is
  the argv loop; `AppendScreen` and `BuildDisplayOrder` fill an
  `array<int>` of length 4 in place; `Rotate` is the round-robin `while` loop
  over the array with cursor `idx`; `RunDisplay` is `main` as a whole. Each
  method is proved against a function (`DebugRequested`, `RotationTable`,
  `RotationEvents`/`Cursor`, `ControllerRun`), and the properties of a run
  are lemmas about `ControllerRun`.

Inputs of a run: the argument vector; the configuration loader, a function
from the initial configuration and the debug flag to a success flag and the
configuration it leaves behind; the device handle as it stands after
`ssd1306_begin`; and `fuel`, the number of loop iterations to follow. The
loop never ends in the source; after `fuel` iterations a run is
`Running(cursor)`. Where the program returns, it is `Returned(0)`.

Behaviour of the source worth noting:

- On a display that fails to open, `main` prints a message and returns 0
  (C/display.c:31-35); its exit status does not tell this failure apart from
  a normal return.
- With every screen disabled, the loop guard is false at once and `main`
  returns 0 after the prologue (C/display.c:43, 51); nothing is rendered and
  no modulo by zero is computed.
- The hostname screen is shown by `LCD_DisplayHostname` in the prologue and,
  when enabled, also through `LCD_Display` as entry 3 of the rotation.

## Model

| member | source | states |
|---|---|---|
| Display.ScanDebugFlag | C/display.c:13-18 | debug is true exactly when some argv[i] with i >= 1 is "-d" or "--debug" |
| Display.ProgramNameIgnored | C/display.c:14 | replacing argv[0] never changes whether debug mode is requested |
| Screens.EnabledCount | C/display.c:21-28 | the number of set flags is at most 4; it is 0 exactly when all flags are off and 4 exactly for the all-enabled default |
| Screens.RotationTable | C/display.c:20-28 | the table built from the flags has as many entries as there are enabled flags |
| Screens.TableWellFormed | C/display.c:25-28 | the table is strictly increasing (priority order 0, 1, 2, 3, no duplicates) and holds only ids in 0..3 |
| Screens.TableMembers | C/display.c:25-28 | an id is in the table if and only if its screen is enabled |
| Screens.FlagsOfTable | C/display.c:25-28 | reading the flags back off the table gives the flags it was built from |
| Screens.TableOfFlags | C/display.c:25-28 | every strictly increasing table of ids in 0..3 is the table built from its own flags |
| Screens.TableInjective | C/display.c:25-28 | the builder is deterministic and injective: two flag sets give the same table if and only if they are equal |
| Screens.IncreasingDeterminedByElements | C/display.c:25-28 | two strictly increasing tables with the same elements are equal, so the fixed order leaves no choice |
| Display.AppendScreen | C/display.c:25 | one `if (flag) display_order[display_count++] = id;` line: the filled prefix grows by id exactly when the flag is set, the write stays inside the array, and no other slot changes |
| Display.BuildDisplayOrder | C/display.c:20-28 | a fresh 4-slot array whose first display_count slots are the rotation table, with display_count equal to the number of enabled flags |
| Display.Cursor | C/display.c:42-49 | the cursor after any number of steps of idx = (idx + 1) % n from 0 stays in [0, n) |
| Display.CursorIsMod | C/display.c:49 | after k steps the cursor is k mod n |
| Display.RendersDwell | C/display.c:45-48 | one loop iteration renders exactly its own screen (the three one-second sleeps render nothing) |
| Display.RotationNeverCallsDisplayHostname | C/display.c:43-50 | the rotation loop never calls `LCD_DisplayHostname` (screen 3 can still be rendered through `LCD_Display`) |
| Display.Rotate | C/display.c:42-50 | the loop over display_order: with display_count 0 it emits nothing and leaves idx at 0; otherwise its events are those of `fuel` iterations and idx is the cursor after `fuel` steps |
| Display.Schedule | C/display.c:45-49 | the list of screens rendered by k iterations has length k |
| Display.RotationRenders | C/display.c:43-49 | the renders of the first k loop iterations are exactly the scheduled screens |
| Display.ScheduleAt | C/display.c:45-49 | the j-th scheduled screen is table[j mod table length] |
| Display.RunDisplay | C/display.c:11-52 | main's trace and outcome after `fuel` loop iterations are those of ControllerRun: the loader is called on the all-enabled defaults with the scanned debug flag, a failed load adds a warning, then begin, then either the device error and return 0, or the prologue followed by the loop |
| Display.StartupRendersNothing | C/display.c:22-41 | nothing before the loop is a rotation render |
| Display.DeviceFailureRendersNothing | C/display.c:30-35 | with a negative device handle main returns 0 and neither the hostname screen nor any rotation screen is rendered |
| Display.PrologueHostnameCount | C/display.c:38-41 | before the loop `LCD_DisplayHostname` is called once when `show_hostname` is set and not at all otherwise |
| Display.HostnameShownOnceFirst | C/display.c:38-50 | in a run whose display opened, `LCD_DisplayHostname` is called exactly once if and only if `show_hostname` is set, and no `LCD_Display` call comes before it |
| Display.RotationSchedule | C/display.c:42-50 | with at least one screen enabled, the run renders exactly `fuel` rotation screens, the k-th being table[k mod display_count], and the cursor ends at fuel mod display_count |
| Display.SingleScreenRepeats | C/display.c:42-50 | with a single screen enabled the cursor stays 0 and every rotation render is that screen |
| Display.EmptyRotationReturns | C/display.c:42-51 | with every screen disabled the loop body never runs, nothing is rendered and main returns 0 |
| Display.FailedLoadOnlyWarns | C/display.c:19-24 | a failed configuration load never aborts: the run is the one with the same configuration loaded, preceded by the warning |

## Left out

- `load_display_config` (called at C/display.c:22): its file parsing is not part of this model; it is a parameter that receives the all-enabled defaults and the debug flag and returns a success flag and the resulting configuration.
- `ssd1306_begin`, its arguments and the driver's global `i2cd` (C/display.c:30-31): hardware driver code; the value of `i2cd` after the call is an input.
- `usleep` and `sleep` (C/display.c:36, 40, 46-48): recorded as `Sleep` events with their durations; real time and responsiveness to signals are not modelled.
- `FirstGetIpAddress`, `LCD_DisplayHostname` and `LCD_Display` (C/display.c:37-45): metric collection and pixel rendering in other files; recorded as opaque events.
- `printf` diagnostics (C/display.c:23, 33): recorded as `ConfigWarning` and `DeviceError` events without their text; the unused `symbol` variable (C/display.c:29) is left out.
- The endless loop is followed for `fuel` iterations; what happens after any finite number of iterations is covered, an infinite run as such is not.
- `display_order` is uninitialised in C beyond `display_count`; those slots are arbitrary in the model too, and are never read.
- Integer widths: `display_count` and `idx` stay within 0..4, so C's `int` cannot overflow here; the iteration counter used to bound the loop is the model's own and is unbounded.
- The boot and install shell scripts: operational glue outside `main`.
