/** The `androint` character driver: a shared pair of ints, a semaphore, and one access
    routine with several exits.  `down_interruptible`, `copy_to_user` and
    `copy_from_user` belong to the kernel: whether they fail is part of the request.
 */
module AndrointDriver {
  import opened Basics

  const SIZEOF_INT: nat := 4
  const EFAULT: int := 14
  const ERESTARTSYS: int := 512

  function Wrap32(x: int): (r: Int32)
    ensures (x - r) % 0x1_0000_0000 == 0
  {
    (x + 0x8000_0000) % 0x1_0000_0000 - 0x8000_0000
  }

  datatype Pair = Pair(a: Int32, b: Int32)

  function Sum(p: Pair): Int32 { Wrap32(p.a + p.b) }

  /** A read or write of `count` bytes.  A faulting `copy_from_user` leaves some other
      pair, `torn`, in the device. */
  datatype Request =
    | Read(count: nat, fault: bool)
    | Write(count: nat, pair: Pair, torn: Option<Pair>)

  /** The returned ssize_t, and the int delivered whole to the reader's buffer, if any. */
  datatype Outcome = Outcome(retval: int, delivered: Option<Int32>)

  /** The pair after a request that got the semaphore. */
  function PairAfter(p: Pair, r: Request): Pair {
    match r
    case Read(_, _) => p
    case Write(count, pair, torn) =>
      if count != 2 * SIZEOF_INT then p else if torn.Some? then torn.value else pair
  }

  /** The outcome of a request that found pair p.  A wrong size returns 0. */
  function OutcomeAt(p: Pair, r: Request): Outcome {
    match r
    case Read(count, fault) =>
      if count != SIZEOF_INT then Outcome(0, None)
      else if fault then Outcome(-EFAULT, None)
      else Outcome(count, Some(Sum(p)))
    case Write(count, pair, torn) =>
      if count != 2 * SIZEOF_INT then Outcome(0, None)
      else if torn.Some? then Outcome(-EFAULT, None)
      else Outcome(count, None)
  }

  class AndrointDevice {
    const data: array<Int32>
    var sem: int

    ghost predicate Valid() reads this { data.Length == 2 && sem == 1 }

    ghost function Held(): Pair reads this, data requires data.Length == 2 { Pair(data[0], data[1]) }

    constructor ()
      ensures Valid() && fresh(data) && Held() == Pair(0, 0)
    {
      data := new Int32[2](_ => 0);
      sem := 1;
    }

    /** `androint_access`, with its `goto out` exits: every path taken after the
        semaphore was acquired releases it. */
    method Access(r: Request, interrupted: bool) returns (o: Outcome)
      requires Valid()
      modifies this, data
      ensures Valid()
      ensures interrupted ==> o == Outcome(-ERESTARTSYS, None) && Held() == old(Held())
      ensures !interrupted ==> o == OutcomeAt(old(Held()), r) && Held() == PairAfter(old(Held()), r)
      ensures interrupted ==> o.retval == -512
      ensures !interrupted && r.Read? ==>
                && Held() == old(Held())
                && (r.count != 4 ==> o == Outcome(0, None))
                && (r.count == 4 && r.fault ==> o == Outcome(-14, None))
                && (r.count == 4 && !r.fault ==>
                      && o.retval == 4 && o.delivered.Some?
                      && (o.delivered.value as int - old(data[0]) as int - old(data[1]) as int) % 0x1_0000_0000 == 0)
      ensures !interrupted && r.Write? ==>
                && o.delivered.None?
                && o.retval == (if r.count != 8 then 0 else if r.torn.Some? then -14 else 8)
                && Held() == if r.count != 8 then old(Held()) else if r.torn.Some? then r.torn.value else r.pair
    {
      if interrupted { return Outcome(-ERESTARTSYS, None); }
      sem := sem - 1;
      var retval: int := 0;
      var delivered := None;
      match r {
        case Read(count, fault) =>
          var sum := Sum(Pair(data[0], data[1]));
          if count != SIZEOF_INT {
            sem := sem + 1;
            return Outcome(retval, None);
          }
          if fault { retval := SIZEOF_INT; } else { delivered := Some(sum); }
        case Write(count, pair, torn) =>
          if count != SIZEOF_INT * 2 {
            sem := sem + 1;
            return Outcome(retval, None);
          }
          var source := pair;
          if torn.Some? { retval, source := count, torn.value; }
          data[0], data[1] := source.a, source.b;
      }
      if retval != 0 {
        retval := -EFAULT;
        sem := sem + 1;
        return Outcome(retval, None);
      }
      retval := r.count;
      sem := sem + 1;
      return Outcome(retval, delivered);
    }
  }

  /** The direct form of the adder, which the device round trip replaces. */
  function DirectAdd(a: Int32, b: Int32): Int32 { Wrap32(a + b) }

  /** `add_androint` with the device to itself.  `out` is whatever was on the stack when
      the read does not take place, and whatever a faulting copy left there, `partial`,
      when it does not complete. */
  method AddAndroint(dev: AndrointDevice, a: Int32, b: Int32, opens: bool,
                     writeInterrupted: bool, torn: Option<Pair>,
                     readInterrupted: bool, readFault: bool, partial: Int32, stack: Int32)
    returns (out: Int32)
    requires dev.Valid()
    modifies dev, dev.data
    ensures dev.Valid()
    ensures dev.Held() == if !opens || writeInterrupted then old(dev.Held())
                          else if torn.Some? then torn.value else Pair(a, b)
    ensures !opens || readInterrupted ==> out == stack
    ensures opens && !readInterrupted && readFault ==> out == partial
    ensures opens && !readInterrupted && !readFault ==>
              && (writeInterrupted ==> out == Sum(old(dev.Held())))
              && (!writeInterrupted && torn.Some? ==> out == Sum(torn.value))
              && (!writeInterrupted && torn.None? ==>
                    out == DirectAdd(a, b) && (out as int - a as int - b as int) % 0x1_0000_0000 == 0)
  {
    out := stack;
    if opens {
      var _ := dev.Access(Write(2 * SIZEOF_INT, Pair(a, b), torn), writeInterrupted);
      var o := dev.Access(Read(SIZEOF_INT, readFault), readInterrupted);
      if o.delivered.Some? {
        out := o.delivered.value;
      } else if o.retval == -EFAULT {
        out := partial;
      }
    }
  }
}
