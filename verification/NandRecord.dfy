/** The identity record in NAND: serial number, product type, hardware version and
    product id at fixed offsets, the first three with a length prefix.
 */
module NandRecord {
  import opened Capture
  import opened ProductId

  const SERIAL_NUMBER_LEN: nat := 2
  const PRODUCT_TYPE_OFF: nat := 32
  const HARDWARE_VERSION_OFF: nat := 48
  const PRODUCT_ID_OFF: nat := 58
  const PRODUCT_ID_LEN: nat := 4

  // ----- the file -----

  /** The bytes at the front of memory m after s was read into it. */
  function Overlay(m: seq<Octet>, s: seq<Octet>): (r: seq<Octet>)
    requires |s| <= |m|
    ensures |r| == |m|
  {
    s + m[|s|..]
  }

  lemma OverlayNothing(m: seq<Octet>, image: seq<Octet>, at: nat)
    requires at <= |image|
    ensures Overlay(m, image[at..at]) == m
  {}

  class NandFile {
    const image: seq<Octet>
    const seekable: bool
    var pos: nat

    constructor (image: seq<Octet>, seekable: bool)
      ensures this.image == image && this.seekable == seekable
    {
      this.image, this.seekable, this.pos := image, seekable, 0;
    }

    method Seek(offset: nat) returns (ok: bool)
      modifies this`pos
      ensures ok == seekable && pos == if ok then offset else old(pos)
    {
      ok := seekable;
      if ok { pos := offset; }
    }

    method Fread(buf: array<Octet>, n: nat) returns (got: nat)
      requires n <= buf.Length
      modifies this`pos, buf
      ensures got == if old(pos) + n <= |image| then n else if old(pos) <= |image| then |image| - old(pos) else 0
      ensures got == n ==> pos == old(pos) + n
      ensures got == n > 0 ==> buf[..] == Overlay(old(buf[..]), image[old(pos)..old(pos) + n])
      ensures n == 0 ==> buf[..] == old(buf[..])
    {
      got := if pos + n <= |image| then n else if pos <= |image| then |image| - pos else 0;
      var from := pos;
      ghost var was := buf[..];
      forall i | 0 <= i < got { buf[i] := image[from + i]; }
      if got == n > 0 {
        ghost var now := Overlay(was, image[from..from + n]);
        assert forall i :: 0 <= i < buf.Length ==> buf[i] == now[i];
      }
      pos := pos + got;
    }
  }

  /** A `char` as an int. */
  function CharValue(c: Octet, abi: Abi): (r: int)
    ensures (r - c as int) % 256 == 0 && if abi.signedChar then -128 <= r < 128 else 0 <= r < 256
  {
    if abi.signedChar && c as int >= 0x80 then c as int - 256 else c as int
  }

  /** The reads of one field all succeed: the header is there and so are the bytes that
      its first byte announces. */
  predicate FieldOk(image: seq<Octet>, off: nat, len: nat, abi: Abi)
    requires len > 0
  {
    off + len <= |image| && CharValue(image[off], abi) >= 0 && off + len + image[off] as int <= |image|
  }

  /** What those reads leave in memory m: the data over the header. */
  function FieldMemory(image: seq<Octet>, off: nat, len: nat, abi: Abi, m: seq<Octet>): seq<Octet>
    requires 0 < len <= |m| && FieldOk(image, off, len, abi) && 256 <= |m|
  {
    Overlay(Overlay(m, image[off..off + len]), image[off + len..off + len + image[off] as int])
  }

  /** `readNand`.  A negative length asks `fread` for a huge count, which it cannot
      return, so the read fails. */
  method ReadNand(file: NandFile, offset: nat, length: nat, res: array<Octet>, lengthInNand: bool, abi: Abi)
    returns (ok: bool)
    requires 0 < length <= res.Length == SIZE_1K
    modifies file`pos, res
    ensures lengthInNand ==> ok == (file.seekable && FieldOk(file.image, offset, length, abi))
    ensures lengthInNand && ok ==> res[..] == FieldMemory(file.image, offset, length, abi, old(res[..]))
    ensures !lengthInNand ==> ok == (file.seekable && offset + length <= |file.image|)
    ensures !lengthInNand && ok ==> res[..] == Overlay(old(res[..]), file.image[offset..offset + length])
  {
    var found := file.Seek(offset);
    if !found { return false; }
    var len := file.Fread(res, length);
    if len != length { return false; }
    if !lengthInNand { return true; }
    ok := ReadAnnounced(file, offset, length, res, abi, old(res[..]));
  }

  /** The second read: as many bytes as the first one of the header says. */
  method ReadAnnounced(file: NandFile, offset: nat, length: nat, res: array<Octet>, abi: Abi, ghost m: seq<Octet>)
    returns (ok: bool)
    requires 0 < length <= res.Length == |m| == SIZE_1K
    requires file.pos == offset + length <= |file.image|
    requires res[..] == Overlay(m, file.image[offset..offset + length])
    modifies file`pos, res
    ensures ok == FieldOk(file.image, offset, length, abi)
    ensures ok ==> res[..] == FieldMemory(file.image, offset, length, abi, m)
  {
    assert res[0] == res[..][0] == file.image[offset];
    var val := CharValue(res[0], abi);
    if val < 0 { return false; }
    var len := file.Fread(res, val);
    if val != len { return false; }
    if val == 0 {
      OverlayNothing(Overlay(m, file.image[offset..offset + length]), file.image, offset + length);
    }
    return true;
  }

  // ----- the record -----

  function Zeros(): seq<Octet> { seq(SIZE_1K, _ => NUL) }

  /** The text of a field read into zeroed memory. */
  function FieldText(image: seq<Octet>, off: nat, len: nat, abi: Abi): string
    requires 0 < len <= SIZE_1K && FieldOk(image, off, len, abi)
  {
    CStr(FieldMemory(image, off, len, abi, Zeros()))
  }

  /** The contents of the file: None when it cannot be opened. */
  datatype Image = Missing | Image(bytes: seq<Octet>, seekable: bool)

  datatype Identity = Identity(
    init: bool,
    serial: string,
    productType: string,
    hardware: string,
    productId: string)

  predicate SerialOk(im: Image, abi: Abi) { im.Image? && im.seekable && FieldOk(im.bytes, 0, SERIAL_NUMBER_LEN, abi) }
  predicate TypeOk(im: Image, abi: Abi) { SerialOk(im, abi) && FieldOk(im.bytes, PRODUCT_TYPE_OFF, 1, abi) }
  predicate HardwareOk(im: Image, abi: Abi) { TypeOk(im, abi) && FieldOk(im.bytes, HARDWARE_VERSION_OFF, 1, abi) }
  predicate IdOk(im: Image, abi: Abi) { HardwareOk(im, abi) && PRODUCT_ID_OFF + PRODUCT_ID_LEN <= |im.bytes| }

  /** What the service knows after its start, for every image. */
  function Identify(im: Image, abi: Abi): Identity {
    Identity(
      IdOk(im, abi),
      if SerialOk(im, abi) then FieldText(im.bytes, 0, SERIAL_NUMBER_LEN, abi) else "",
      if TypeOk(im, abi) then FieldText(im.bytes, PRODUCT_TYPE_OFF, 1, abi) else "",
      if HardwareOk(im, abi) then FieldText(im.bytes, HARDWARE_VERSION_OFF, 1, abi) else "",
      if IdOk(im, abi) then
        IdString(FourBytes(im.bytes[PRODUCT_ID_OFF..PRODUCT_ID_OFF + PRODUCT_ID_LEN]), abi)
      else "")
  }

  // ----- parsing undoes the layout -----

  /** The image stores these fields at their offsets; the bytes between are arbitrary. */
  ghost predicate LaidOut(image: seq<Octet>, serial: seq<Octet>, spare: Octet, ptype: seq<Octet>,
                          hardware: seq<Octet>, id: seq<Octet>)
  {
    && |serial| <= 30 && |ptype| <= 15 && |hardware| <= 9 && |id| == PRODUCT_ID_LEN
    && |image| >= PRODUCT_ID_OFF + PRODUCT_ID_LEN
    && image[0] as int == |serial| && image[1] == spare
    && image[2..2 + |serial|] == serial
    && image[32] as int == |ptype| && image[33..33 + |ptype|] == ptype
    && image[48] as int == |hardware| && image[49..49 + |hardware|] == hardware
    && image[58..62] == id
  }

  function Pad(s: seq<Octet>, n: nat): seq<Octet>
    requires |s| <= n
  {
    s + seq(n - |s|, _ => NUL)
  }

  function Octets(n: nat): Octet
    requires n < 256
  {
    n as char
  }

  /** Such an image exists for all fields of admissible length. */
  lemma LayoutExists(serial: seq<Octet>, spare: Octet, ptype: seq<Octet>, hardware: seq<Octet>, id: seq<Octet>)
    returns (image: seq<Octet>)
    requires |serial| <= 30 && |ptype| <= 15 && |hardware| <= 9 && |id| == PRODUCT_ID_LEN
    ensures LaidOut(image, serial, spare, ptype, hardware, id)
  {
    var a := Pad([Octets(|serial|), spare] + serial, 32);
    var b := Pad([Octets(|ptype|)] + ptype, 16);
    var c := Pad([Octets(|hardware|)] + hardware, 10);
    image := a + b + c + id;
    assert image[..32] == a && image[32..48] == b && image[48..58] == c && image[58..62] == id;
    assert image[2..2 + |serial|] == a[2..2 + |serial|] == serial;
    assert image[33..33 + |ptype|] == b[1..1 + |ptype|] == ptype;
    assert image[49..49 + |hardware|] == c[1..1 + |hardware|] == hardware;
  }

  lemma MemoryAt(image: seq<Octet>, off: nat, len: nat, abi: Abi, i: nat)
    requires 0 < len <= 2 && FieldOk(image, off, len, abi) && i < SIZE_1K
    ensures FieldMemory(image, off, len, abi, Zeros())[i] ==
              if i < image[off] as int then image[off + len + i] else if i < len then image[off + i] else NUL
  {
    var head := image[off..off + len];
    var m := Overlay(Zeros(), head);
    assert m[i] == if i < len then head[i] else NUL;
  }

  /** The C string left in zeroed memory by a field: its data, and the rest of the header
      when the data is shorter. */
  lemma FieldTextIs(image: seq<Octet>, off: nat, len: nat, abi: Abi, data: seq<Octet>)
    requires 0 < len <= 2 && FieldOk(image, off, len, abi) && |data| == image[off] as int
    requires image[off + len..off + len + |data|] == data && Clean(data)
    ensures FieldText(image, off, len, abi) ==
              if len == 2 && |data| == 1 && image[off + 1] != NUL then data + [image[off + 1]] else data
  {
    var n, m := |data|, FieldMemory(image, off, len, abi, Zeros());
    forall i | 0 <= i < n ensures m[i] == data[i] {
      MemoryAt(image, off, len, abi, i);
      assert data[i] == image[off + len..off + len + n][i];
    }
    assert m[..n] == data;
    MemoryAt(image, off, len, abi, n);
    if len == 2 && n == 1 && image[off + 1] != NUL {
      MemoryAt(image, off, len, abi, 2);
      assert m[..2] == data + [image[off + 1]];
      CStrIs(m, 2);
    } else {
      CStrIs(m, n);
    }
  }

  /** What is read of a stored serial number. */
  function SerialRead(serial: seq<Octet>, spare: Octet): string {
    if |serial| == 1 && spare != NUL then serial + [spare] else serial
  }

  /** What is read of each stored field depends on that field alone. */
  lemma FieldsRead(image: seq<Octet>, serial: seq<Octet>, spare: Octet, ptype: seq<Octet>,
                   hardware: seq<Octet>, id: seq<Octet>, abi: Abi)
    requires LaidOut(image, serial, spare, ptype, hardware, id)
    requires Clean(serial) && Clean(ptype) && Clean(hardware)
    ensures Identify(Image(image, true), abi) ==
              Identity(true, SerialRead(serial, spare), ptype, hardware, IdString(FourBytes(id), abi))
  {
    var im := Image(image, true);
    assert IdOk(im, abi) by { LaidOutIsRead(image, serial, spare, ptype, hardware, id, abi); }
    FieldTextIs(image, 0, 2, abi, serial);
    FieldTextIs(image, 32, 1, abi, ptype);
    FieldTextIs(image, 48, 1, abi, hardware);
    assert Identify(im, abi).serial == SerialRead(serial, spare);
    assert Identify(im, abi).productType == ptype && Identify(im, abi).hardware == hardware;
  }

  lemma LaidOutIsRead(image: seq<Octet>, serial: seq<Octet>, spare: Octet, ptype: seq<Octet>,
                      hardware: seq<Octet>, id: seq<Octet>, abi: Abi)
    requires LaidOut(image, serial, spare, ptype, hardware, id)
    ensures IdOk(Image(image, true), abi)
  {}

  /** The fields come back from every image that stores them, lengths 0 and 1 included.
      The serial number alone has an exception: the second header byte survives behind a
      one-byte serial. */
  lemma ParsingUndoesLayout(image: seq<Octet>, serial: seq<Octet>, spare: Octet, ptype: seq<Octet>,
                            hardware: seq<Octet>, id: seq<Octet>, abi: Abi)
    requires LaidOut(image, serial, spare, ptype, hardware, id)
    requires Clean(serial) && Clean(ptype) && Clean(hardware)
    ensures var r := Identify(Image(image, true), abi);
            && r.init
            && r.productType == ptype && r.hardware == hardware
            && (r.serial == serial <==> |serial| != 1 || spare == NUL)
            && (r.productId == EightDigits(FourBytes(id)) <==> JoinsRight(FourBytes(id), abi))
            && (ParseHex(r.productId) == BigEndian(FourBytes(id)) <==> JoinsRight(FourBytes(id), abi))
  {
    FieldsRead(image, serial, spare, ptype, hardware, id, abi);
    assert |SerialRead(serial, spare)| > |serial| <==> |serial| == 1 && spare != NUL;
    IdStringIff(FourBytes(id), abi);
  }

  /** Rewriting one stored field leaves what is read of the others as it was, even when
      the images differ in every byte between fields. */
  lemma FieldsAreIndependent(a: seq<Octet>, b: seq<Octet>, s: seq<Octet>, s': seq<Octet>, spare: Octet, spare': Octet,
                             t: seq<Octet>, t': seq<Octet>, h: seq<Octet>, h': seq<Octet>,
                             id: seq<Octet>, id': seq<Octet>, abi: Abi)
    requires LaidOut(a, s, spare, t, h, id) && LaidOut(b, s', spare', t', h', id')
    requires Clean(s) && Clean(s') && Clean(t) && Clean(t') && Clean(h) && Clean(h')
    ensures var ra, rb := Identify(Image(a, true), abi), Identify(Image(b, true), abi);
            && (s == s' && spare == spare' ==> ra.serial == rb.serial)
            && (t == t' ==> ra.productType == rb.productType)
            && (h == h' ==> ra.hardware == rb.hardware)
            && (id == id' ==> ra.productId == rb.productId)
  {
    FieldsRead(a, s, spare, t, h, id, abi);
    FieldsRead(b, s', spare', t', h', id', abi);
  }
}
