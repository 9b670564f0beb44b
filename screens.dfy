/**
  The four status screens of the panel, the enable flags that select them,
  and the rotation table built from those flags (C/display.c, lines 19-28).
  Screens are identified by the integer codes the controller passes to the
  renderer: 0 temperature, 1 CPU memory, 2 SD memory, 3 hostname.
 */
module Screens {

  const Temperature: int := 0
  const CpuMemory: int := 1
  const SdMemory: int := 2
  const Hostname: int := 3

  /** Number of screen ids, and the capacity of the controller's `display_order` array. */
  const ScreenCount: int := 4

  /** The four enable flags of `struct DisplayConfig`. */
  datatype DisplayConfig = DisplayConfig(
    showTemperature: bool,
    showCpuMemory: bool,
    showSdMemory: bool,
    showHostname: bool)

  /** The initialiser `{1,1,1,1}`: every screen enabled. */
  const Defaults := DisplayConfig(true, true, true, true)

  /** The flag that governs screen `id`; ids outside 0..3 are never enabled. */
  predicate Enabled(c: DisplayConfig, id: int)
  {
    if id == Temperature then c.showTemperature
    else if id == CpuMemory then c.showCpuMemory
    else if id == SdMemory then c.showSdMemory
    else if id == Hostname then c.showHostname
    else false
  }

  /** How many of the four flags are set. */
  function EnabledCount(c: DisplayConfig): (n: nat)
    ensures n <= ScreenCount
    ensures n == 0 <==> c == DisplayConfig(false, false, false, false)
    ensures n == ScreenCount <==> c == Defaults
  {
    (if c.showTemperature then 1 else 0) + (if c.showCpuMemory then 1 else 0)
    + (if c.showSdMemory then 1 else 0) + (if c.showHostname then 1 else 0)
  }

  predicate StrictlyIncreasing(s: seq<int>)
  {
    forall i, j :: 0 <= i < j < |s| ==> s[i] < s[j]
  }

  /** A well-formed rotation table: screen ids in priority order, each at most once. */
  predicate IsRotationTable(s: seq<int>)
  {
    StrictlyIncreasing(s) && forall i :: 0 <= i < |s| ==> 0 <= s[i] < ScreenCount
  }

  /** One step of the builder, `display_order[display_count++] = id` when the flag is set. */
  function AppendIf(t: seq<int>, flag: bool, id: int): (r: seq<int>)
    ensures |r| == |t| + (if flag then 1 else 0)
  {
    if flag then t + [id] else t
  }

  /**
    The rotation table the controller builds: exactly the enabled screens,
    in the fixed priority order temperature, CPU memory, SD memory, hostname
    (TableWellFormed, TableMembers).
   */
  function RotationTable(c: DisplayConfig): (t: seq<int>)
    ensures |t| == EnabledCount(c)
  {
    var t0 := AppendIf([], c.showTemperature, Temperature);
    var t1 := AppendIf(t0, c.showCpuMemory, CpuMemory);
    var t2 := AppendIf(t1, c.showSdMemory, SdMemory);
    AppendIf(t2, c.showHostname, Hostname)
  }

  /** The table is strictly increasing and holds only screen ids. */
  lemma TableWellFormed(c: DisplayConfig)
    ensures IsRotationTable(RotationTable(c))
  {
  }

  /** The table holds exactly the ids of the enabled screens. */
  lemma TableMembers(c: DisplayConfig)
    ensures forall id :: id in RotationTable(c) <==> Enabled(c, id)
  {
  }

  /** Reads the enable flags back off a table: the inverse of RotationTable. */
  function FlagsOf(t: seq<int>): (c: DisplayConfig)
    ensures forall id :: Enabled(c, id) <==> id in t && 0 <= id < ScreenCount
  {
    DisplayConfig(Temperature in t, CpuMemory in t, SdMemory in t, Hostname in t)
  }

  /** Two strictly increasing sequences with the same elements are equal. */
  lemma {:induction false} IncreasingDeterminedByElements(a: seq<int>, b: seq<int>)
    requires StrictlyIncreasing(a) && StrictlyIncreasing(b)
    requires forall x :: x in a <==> x in b
    ensures a == b
  {
    if b != [] {
      assert b[0] in b;
    }
    if a != [] {
      assert a[0] in a;
      assert b != [] by { assert a[0] in b; }
      assert a[0] == b[0] by {
        assert a[0] in b;
        assert b[0] in b;
        assert b[0] in a;
      }
      forall x
        ensures x in a[1..] <==> x in b[1..]
      {
        if x in a[1..] {
          assert x in b;
          assert x != b[0];
        }
        if x in b[1..] {
          assert x in a;
          assert x != a[0];
        }
      }
      IncreasingDeterminedByElements(a[1..], b[1..]);
      assert a == [a[0]] + a[1..];
      assert b == [b[0]] + b[1..];
    }
  }

  /** Building the table from flags and reading the flags back is the identity. */
  lemma FlagsOfTable(c: DisplayConfig)
    ensures FlagsOf(RotationTable(c)) == c
  {
  }

  /**
    Every well-formed table is the one built from its own flags, so the
    builder's results are exactly the well-formed tables.
   */
  lemma TableOfFlags(t: seq<int>)
    requires IsRotationTable(t)
    ensures RotationTable(FlagsOf(t)) == t
  {
    TableMembers(FlagsOf(t));
    TableWellFormed(FlagsOf(t));
    IncreasingDeterminedByElements(RotationTable(FlagsOf(t)), t);
  }

  /** Determinism and injectivity: equal tables come from equal flags and vice versa. */
  lemma TableInjective(c1: DisplayConfig, c2: DisplayConfig)
    ensures RotationTable(c1) == RotationTable(c2) <==> c1 == c2
  {
    FlagsOfTable(c1);
    FlagsOfTable(c2);
  }
}
