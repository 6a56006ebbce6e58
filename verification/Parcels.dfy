/** A Parcel as its callers see it: a tape of typed items and a read cursor.  The byte
    layout belongs to libbinder.  A read past the end yields the zero value, and so does
    a read of another kind of item; a read consumes one item if there is one.
 */
module Parcels {
  import opened Basics

  datatype Item = I32(v: Int32) | S16(s: string) | Token(name: string)

  function IntAt(tape: seq<Item>, i: nat): Int32 {
    if i < |tape| && tape[i].I32? then tape[i].v else 0
  }

  function StrAt(tape: seq<Item>, i: nat): string {
    if i < |tape| && tape[i].S16? then tape[i].s else ""
  }

  function Advance(tape: seq<Item>, i: nat): nat { if i < |tape| then i + 1 else i }

  class Parcel {
    var tape: seq<Item>
    var pos: nat

    constructor ()
      ensures tape == [] && pos == 0
    {
      tape, pos := [], 0;
    }

    method WriteInt32(v: Int32)
      modifies this`tape
      ensures tape == old(tape) + [I32(v)]
    {
      tape := tape + [I32(v)];
    }

    method WriteString16(s: string)
      modifies this`tape
      ensures tape == old(tape) + [S16(s)]
    {
      tape := tape + [S16(s)];
    }

    method WriteInterfaceToken(name: string)
      modifies this`tape
      ensures tape == old(tape) + [Token(name)]
    {
      tape := tape + [Token(name)];
    }

    method WriteNoException()
      modifies this`tape
      ensures tape == old(tape) + [I32(0)]
    {
      WriteInt32(0);
    }

    method ReadInt32() returns (v: Int32)
      modifies this`pos
      ensures v == IntAt(tape, old(pos)) && pos == Advance(tape, old(pos))
    {
      v := IntAt(tape, pos);
      pos := Advance(tape, pos);
    }

    method ReadString16() returns (s: string)
      modifies this`pos
      ensures s == StrAt(tape, old(pos)) && pos == Advance(tape, old(pos))
    {
      s := StrAt(tape, pos);
      pos := Advance(tape, pos);
    }

    method EnforceInterface(name: string) returns (ok: bool)
      modifies this`pos
      ensures ok <==> old(pos) < |tape| && tape[old(pos)] == Token(name)
      ensures pos == Advance(tape, old(pos))
    {
      ok := pos < |tape| && tape[pos] == Token(name);
      pos := Advance(tape, pos);
    }
  }
}
