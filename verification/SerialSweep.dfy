/**
 The stale-serial guard of a seat's selection, and the three-serial sweep with
 which the clipboard test client gets past it without knowing the seat's serial.
 Source: qdwin/qdwin-logic.c, test-client/qdwin-test-clipboard-emit.c.
 */
module SerialSweep {
  import opened Bytes

  /** Unsigned 32-bit subtraction: it wraps around. */
  function Minus(a: u32, b: u32): u32 {
    if a >= b then a - b else a - b + U32
  }

  function Plus(a: u32, b: u32): u32 {
    if a + b < U32 then a + b else a + b - U32
  }

  /** qdwin_selection_serial_is_stale; UINT32_MAX / 2 is 0x7FFFFFFF. */
  predicate Stale(current: u32, incoming: u32, hasCurrent: bool) {
    hasCurrent && Minus(current, incoming) < 0x7FFF_FFFF
  }

  datatype Selection = Selection(source: Option<nat>, serial: u32)

  /** What a set_selection request leaves behind. */
  function Requested(s: Selection, source: nat, serial: u32): Selection {
    if Stale(s.serial, serial, s.source.Some?) then s else Selection(Some(source), serial)
  }

  class Seat {
    var source: Option<nat>
    var serial: u32

    function Now(): Selection
      reads this
    {
      Selection(source, serial)
    }

    /** weston_seat_set_selection, as far as the guard and the stored selection go. */
    method SetSelection(src: nat, ser: u32)
      modifies this
      ensures Now() == Requested(old(Now()), src, ser)
    {
      if Stale(serial, ser, source.Some?) { return; }
      source := Some(src);
      serial := ser;
    }

    /** The sweep of the clipboard client: two probes, then the source that is meant to win. */
    method Sweep(probe1: nat, probe2: nat, wanted: nat)
      modifies this
      ensures Now() == Selection(Some(wanted), 0xC000_0003)
    {
      SweepWins(Now(), probe1, probe2, wanted);
      SetSelection(probe1, 0x4000_0001);
      SetSelection(probe2, 0x8000_0002);
      SetSelection(wanted, 0xC000_0003);
    }
  }

  /** Whatever the seat held, the third request of the sweep is the one that stays. */
  lemma SweepWins(s: Selection, probe1: nat, probe2: nat, wanted: nat)
    ensures Requested(Requested(Requested(s, probe1, 0x4000_0001), probe2, 0x8000_0002), wanted, 0xC000_0003)
            == Selection(Some(wanted), 0xC000_0003)
  {
  }

  /** A sweep of two serials leaves the second source selected, whatever the seat held. */
  ghost predicate TwoAlwaysWin(first: u32, second: u32) {
    forall s: Selection, probe: nat, wanted: nat ::
      Requested(Requested(s, probe, first), wanted, second) == Selection(Some(wanted), second)
  }

  /** Two serials would do exactly when they lie half a ring apart, give or take one. */
  lemma TwoAlwaysWinIff(first: u32, second: u32)
    ensures TwoAlwaysWin(first, second) <==> 0x7FFF_FFFF <= Minus(second, first) <= 0x8000_0001
  {
    if TwoAlwaysWin(first, second) {
      // a seat that just rejects the first serial from either side
      var s1, s2 := Selection(Some(0), Plus(first, 0x7FFF_FFFE)), Selection(Some(0), first);
      assert Requested(Requested(s1, 1, first), 2, second) == Selection(Some(2), second);
      assert Requested(Requested(s2, 1, first), 2, second) == Selection(Some(2), second);
    } else if 0x7FFF_FFFF <= Minus(second, first) <= 0x8000_0001 {
      forall s: Selection, probe: nat, wanted: nat
        ensures Requested(Requested(s, probe, first), wanted, second) == Selection(Some(wanted), second)
      {
        HalfRing(first, second, s.serial);
      }
    }
  }

  lemma HalfRing(first: u32, second: u32, current: u32)
    requires 0x7FFF_FFFF <= Minus(second, first) <= 0x8000_0001
    ensures !Stale(first, second, true)
    ensures Stale(current, first, true) ==> !Stale(current, second, true)
  {
  }

  /** While a source is set, a serial is accepted exactly over the 2^31 + 1 serials that precede it on the ring. */
  lemma AcceptedIff(current: u32, incoming: u32)
    ensures !Stale(current, incoming, true) <==> 1 <= Minus(incoming, current) <= 0x8000_0001
  {
  }

  /** The current serials each request of the sweep gets past. */
  lemma SweepAccepts(current: u32)
    ensures !Stale(current, 0x4000_0001, true) <==> current <= 0x4000_0000 || current >= 0xC000_0000
    ensures !Stale(current, 0x8000_0002, true) <==> 0x0000_0001 <= current <= 0x8000_0001
    ensures !Stale(current, 0xC000_0003, true) <==> 0x4000_0002 <= current <= 0xC000_0002
  {
    AcceptedIff(current, 0x4000_0001);
    AcceptedIff(current, 0x8000_0002);
    AcceptedIff(current, 0xC000_0003);
  }
}
