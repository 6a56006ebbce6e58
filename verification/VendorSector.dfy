/** The vendor sector that carries the display resolution across reboots, and the
    read-modify-write that `setDeviceResolution` performs on it.

    The rknand driver is not part of this model: each ioctl either fails and changes
    nothing, or moves the first 504 bytes atomically.  The two `unsigned short` stores
    are little-endian, as on the 32-bit ARM target.
 */
module VendorSector {

  type Byte = b: int | 0 <= b < 256

  const SECTOR_LEN: nat := 504
  const BUFFER_LEN: nat := 512
  const RESOLUTION_FLAG: Byte := 0xAC

  type Sector = s: seq<Byte> | |s| == SECTOR_LEN witness seq(SECTOR_LEN, _ => 0)

  /** The arguments of one `setDeviceResolution` call. */
  datatype Call = Call(xres: int, yres: int, refresh: int, flag: int)

  /** Which of the four device operations of a call succeed. */
  datatype Io = Io(opens: bool, gets: bool, stores: bool, rereads: bool)

  datatype Attempt = Attempt(call: Call, io: Io)

  /** The parameter checks that come before the device is opened. */
  predicate Accepted(c: Call) {
    && 0 <= c.refresh <= 100
    && 0 <= c.flag <= 1
    && 800 <= c.xres <= 2560
    && 600 <= c.yres <= 1600
  }

  /** What the boot loader reads back: the enable mark and the display mode. */
  datatype Mode = Mode(x: int, y: int, refresh: int)
  datatype Record = Record(enabled: bool, mode: Mode)

  function DecodeShort(lo: Byte, hi: Byte): int { lo + 256 * hi }

  function ModeOf(s: Sector): Mode {
    Mode(DecodeShort(s[2], s[3]), DecodeShort(s[4], s[5]), s[6])
  }

  function RecordOf(s: Sector): Record {
    Record(s[1] == RESOLUTION_FLAG, ModeOf(s))
  }

  function Requested(c: Call): Mode { Mode(c.xres, c.yres, c.refresh) }

  /** Two sectors agree on every byte that `setDeviceResolution` must not touch. */
  ghost predicate SameOutside(s: Sector, r: Sector) {
    forall i :: 0 <= i < SECTOR_LEN && !(1 <= i <= 6) ==> s[i] == r[i]
  }

  /** The marked resolution is one the parameter checks admit. */
  predicate InRange(s: Sector) {
    RecordOf(s).enabled ==>
      var m := ModeOf(s);
      800 <= m.x <= 2560 && 600 <= m.y <= 1600 && 0 <= m.refresh <= 100
  }

  /** The edit made between GET and STORE, byte by byte, with the casts of the code. */
  function Edit(s: Sector, c: Call): (r: Sector)
    requires Accepted(c)
    ensures SameOutside(s, r)
    ensures c.flag == 1 ==> RecordOf(r) == Record(true, Requested(c))
    ensures c.flag == 0 ==> !RecordOf(r).enabled && r == s[1 := 0]
  {
    if c.flag == 0 then s[1 := 0]
    else
      s[1 := RESOLUTION_FLAG]
      [2 := c.xres % 256][3 := c.xres / 256 % 256]
      [4 := c.yres % 256][5 := c.yres / 256 % 256]
      [6 := c.refresh % 256]
  }

  /** The mode and the mark determine bytes 1..6 of an edited sector, so a flag=1 edit
      does not depend on the bytes it overwrites, while a flag=0 edit keeps the mode. */
  lemma EditDependsOn(s: Sector, r: Sector, c: Call)
    requires Accepted(c) && SameOutside(s, r)
    ensures Edit(s, c) == Edit(r, c) <==> c.flag == 1 || ModeOf(s) == ModeOf(r)
  {
    if ModeOf(s) == ModeOf(r) {
      ShortInjective(s[2], s[3], r[2], r[3]);
      ShortInjective(s[4], s[5], r[4], r[5]);
    }
    var e, f := Edit(s, c), Edit(r, c);
    if c.flag == 0 && e == f {
      assert forall i :: 2 <= i <= 6 ==> s[i] == e[i] && r[i] == f[i];
    } else if c.flag == 1 || ModeOf(s) == ModeOf(r) {
      forall i | 0 <= i < SECTOR_LEN ensures e[i] == f[i] {}
    }
  }

  lemma ShortInjective(a: Byte, b: Byte, c: Byte, d: Byte)
    requires DecodeShort(a, b) == DecodeShort(c, d)
    ensures a == c && b == d
  {}

  lemma EditedSector(c: Call) returns (s: Sector)
    requires Accepted(c)
    ensures RecordOf(s) == Record(true, Requested(c)) && InRange(s)
  {
    s := Edit(seq(SECTOR_LEN, _ => 0), c.(flag := 1));
  }

  /** The parameter checks let through exactly the resolutions that some sector can hold
      as a marked one in range, with a flag of 0 or 1. */
  lemma AcceptedIff(c: Call)
    ensures Accepted(c) <==>
              0 <= c.flag <= 1 && exists s: Sector :: RecordOf(s) == Record(true, Requested(c)) && InRange(s)
  {
    if Accepted(c) {
      var s := EditedSector(c);
    }
  }

  // ----- one call -----

  predicate Stores(a: Attempt) {
    Accepted(a.call) && a.io.opens && a.io.gets && a.io.stores
  }

  function After(s: Sector, a: Attempt): Sector {
    if Stores(a) then Edit(s, a.call) else s
  }

  /** The device node, seen through its two ioctls. */
  class VendorDevice {
    var sector: Sector

    method Get(data: array<Byte>, ok: bool)
      requires data.Length == BUFFER_LEN
      modifies data
      ensures ok ==> data[..SECTOR_LEN] == sector
    {
      if ok {
        forall i | 0 <= i < SECTOR_LEN { data[i] := sector[i]; }
        assert data[..SECTOR_LEN] == sector;
      }
    }

    method Store(data: array<Byte>, ok: bool)
      requires data.Length == BUFFER_LEN
      modifies this
      ensures sector == if ok then data[..SECTOR_LEN] else old(sector)
    {
      if ok { sector := data[..SECTOR_LEN]; }
    }

    /** `setDeviceResolution`: every exit of the code, in its order. */
    method SetDeviceResolution(c: Call, io: Io) returns (ok: bool)
      modifies this
      ensures sector == After(old(sector), Attempt(c, io))
      ensures ok <==> Stores(Attempt(c, io)) && io.rereads
      ensures var stored := && 0 <= c.refresh <= 100 && 0 <= c.flag <= 1
                            && 800 <= c.xres <= 2560 && 600 <= c.yres <= 1600
                            && io.opens && io.gets && io.stores;
              && (ok <==> stored && io.rereads)
              && |sector| == 504
              && (!stored ==> sector == old(sector))
              && (stored && c.flag == 0 ==> sector == old(sector)[1 := 0])
              && (stored && c.flag == 1 ==>
                    && sector[1] == 0xAC
                    && sector[2] as int + 256 * sector[3] as int == c.xres
                    && sector[4] as int + 256 * sector[5] as int == c.yres
                    && sector[6] == c.refresh
                    && sector[0] == old(sector)[0] && sector[7..] == old(sector)[7..])
    {
      if c.refresh < 0 || c.refresh > 100 { return false; }
      if c.flag < 0 || c.flag > 1 { return false; }
      if c.xres < 800 || c.xres > 2560 { return false; }
      if c.yres < 600 || c.yres > 1600 { return false; }
      if !io.opens { return false; }

      var data := new Byte[BUFFER_LEN];
      Get(data, io.gets);
      if !io.gets { return false; }

      data[1] := c.flag;
      if c.flag != 0 {
        data[1] := RESOLUTION_FLAG;
        data[2], data[3] := c.xres % 256, c.xres / 256 % 256;
        data[4], data[5] := c.yres % 256, c.yres / 256 % 256;
        data[6] := c.refresh % 256;
      }
      assert data[..SECTOR_LEN] == Edit(sector, c);
      Store(data, io.stores);
      if !io.stores { return false; }
      Get(data, io.rereads);
      return io.rereads;
    }
  }

  // ----- sequential runs -----

  function RunAll(s: Sector, run: seq<Attempt>): Sector {
    if run == [] then s else After(RunAll(s, run[..|run| - 1]), run[|run| - 1])
  }

  /** The abstract record that a sequential run is meant to implement. */
  function RecordAfter(r: Record, a: Attempt): Record {
    if !Stores(a) then r
    else if a.call.flag == 1 then Record(true, Requested(a.call))
    else r.(enabled := false)
  }

  function RecordRun(r: Record, run: seq<Attempt>): Record {
    if run == [] then r else RecordAfter(RecordRun(r, run[..|run| - 1]), run[|run| - 1])
  }

  lemma {:induction false} SequentialRefinement(s: Sector, run: seq<Attempt>)
    ensures RecordOf(RunAll(s, run)) == RecordRun(RecordOf(s), run)
    ensures SameOutside(s, RunAll(s, run))
  {
    if run == [] {
    } else {
      SequentialRefinement(s, run[..|run| - 1]);
    }
  }

  /** The bytes decode to the last flag=1 call that was stored; the mark is still set
      exactly when no later call was stored. */
  lemma {:induction false} LastStoredCallWins(s: Sector, run: seq<Attempt>, k: nat)
    requires k < |run| && Stores(run[k]) && run[k].call.flag == 1
    requires forall j :: k < j < |run| && Stores(run[j]) ==> run[j].call.flag == 0
    ensures ModeOf(RunAll(s, run)) == Requested(run[k].call)
    ensures RecordOf(RunAll(s, run)).enabled <==> forall j :: k < j < |run| ==> !Stores(run[j])
    ensures var r, c := RunAll(s, run), run[k].call;
            && r[2] as int + 256 * r[3] as int == c.xres && r[4] as int + 256 * r[5] as int == c.yres
            && r[6] == c.refresh
            && (r[1] == 0xAC <==> forall j :: k < j < |run| ==> !Stores(run[j]))
  {
    var n := |run| - 1;
    if k == n {
    } else {
      LastStoredCallWins(s, run[..n], k);
      assert forall j :: k < j < n ==> run[..n][j] == run[j];
      assert run[n] == run[|run| - 1];
    }
  }

  /** A false return tells a caller nothing about the sector: it is unchanged exactly
      when the call failed at or before the STORE, or stored what was already there. */
  lemma FalseReturn(s: Sector, a: Attempt)
    requires !(Stores(a) && a.io.rereads)
    ensures After(s, a) == s <==>
              !Stores(a) || if a.call.flag == 1 then RecordOf(s) == Record(true, Requested(a.call)) else s[1] == 0
  {
    if Stores(a) {
      var e := Edit(s, a.call);
      if a.call.flag == 1 {
        if RecordOf(s) == RecordOf(e) {
          ShortInjective(s[2], s[3], e[2], e[3]);
          ShortInjective(s[4], s[5], e[4], e[5]);
          assert forall i :: 0 <= i < SECTOR_LEN ==> s[i] == e[i];
        }
      } else {
        assert e[1] == 0;
      }
    }
  }

  /** A call whose final GET fails returns false and has still changed the sector. */
  lemma FalseReturnCanChangeTheSector() returns (s: Sector, a: Attempt)
    ensures !(Stores(a) && a.io.rereads) && After(s, a) != s
  {
    s := seq(SECTOR_LEN, _ => 0);
    a := Attempt(Call(1920, 1080, 60, 1), Io(true, true, true, false));
    assert After(s, a)[1] == RESOLUTION_FLAG;
  }
}
