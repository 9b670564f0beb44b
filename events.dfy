/**
  The controller's externally visible behaviour, as a trace of the calls it
  makes into code outside C/display.c: the configuration warning, the
  display driver, the sleeps, the address lookup and the two renderers.
 */
module Events {

  datatype Event =
    | ConfigWarning            // the warning printed when the configuration did not load
    | Begin                    // ssd1306_begin: open and initialise the display
    | DeviceError              // the message printed when the display did not open
    | Sleep(micros: nat)       // usleep / sleep, in microseconds
    | DiscoverIp               // FirstGetIpAddress
    | DisplayHostname          // LCD_DisplayHostname, the identity screen
    | Display(screen: int)     // LCD_Display(screen), one rotation render

  /** usleep(150*1000) after opening the display. */
  const SettleMicros: nat := 150 * 1000
  /** sleep(3) after the hostname screen. */
  const HostnameHoldMicros: nat := 3 * 1000000
  /** Each of the three sleep(1) calls after a rotation render. */
  const DwellStepMicros: nat := 1000000

  /** The screen id of an event that is a rotation render. */
  function RenderOf(e: Event): seq<int>
  {
    if e.Display? then [e.screen] else []
  }

  /** The screen ids of the rotation renders in a trace, in order. */
  function Renders(trace: seq<Event>): (r: seq<int>)
    ensures |r| <= |trace|
  {
    if trace == [] then [] else RenderOf(trace[0]) + Renders(trace[1..])
  }

  /** A trace without rotation renders renders nothing. */
  lemma {:induction false} RendersNone(trace: seq<Event>)
    requires forall e :: e in trace ==> !e.Display?
    ensures Renders(trace) == []
  {
    if trace != [] {
      assert trace[0] in trace;
      assert forall e :: e in trace[1..] ==> e in trace;
      RendersNone(trace[1..]);
    }
  }

  /** Renders distributes over concatenation of traces. */
  lemma {:induction false} RendersAppend(a: seq<Event>, b: seq<Event>)
    ensures Renders(a + b) == Renders(a) + Renders(b)
  {
    if a == [] {
      assert a + b == b;
    } else {
      assert (a + b)[0] == a[0];
      assert (a + b)[1..] == a[1..] + b;
      RendersAppend(a[1..], b);
      calc {
        Renders(a + b);
        RenderOf(a[0]) + Renders(a[1..] + b);
        RenderOf(a[0]) + (Renders(a[1..]) + Renders(b));
        (RenderOf(a[0]) + Renders(a[1..])) + Renders(b);
      }
    }
  }
}
