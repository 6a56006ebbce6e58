/** `executeCmd`: capture of a command's output into a C buffer, and the callers that
    trim it.  `fgets` is as in section 7.21.7.2 of ISO/IEC 9899:2011; chars stand for
    bytes.
 */
module Capture {
  import opened Basics
  import opened Decimal

  const NUL := '\0'
  const SIZE_1K: nat := 1024

  // ----- C strings -----

  predicate Clean(s: seq<char>) { forall i :: 0 <= i < |s| ==> s[i] != NUL }

  lemma CleanConcat(a: seq<char>, b: seq<char>)
    ensures Clean(a + b) <==> Clean(a) && Clean(b)
  {
    if Clean(a + b) {
      assert forall i :: 0 <= i < |a| ==> a[i] == (a + b)[i];
      assert forall i :: 0 <= i < |b| ==> b[i] == (a + b)[|a| + i];
    }
  }

  /** The C string at the start of a piece of memory. */
  function CStr(s: seq<char>): (r: string)
    ensures |r| <= |s|
  {
    if s == [] || s[0] == NUL then [] else [s[0]] + CStr(s[1..])
  }

  /** The C string is the longest NUL-free prefix. */
  lemma {:induction false} CStrIs(s: seq<char>, n: nat)
    requires n <= |s| && Clean(s[..n]) && (n < |s| ==> s[n] == NUL)
    ensures CStr(s) == s[..n]
  {
    if n == 0 {
    } else {
      assert s[0] == s[..n][0];
      assert s[1..][..n - 1] == s[..n][1..];
      CStrIs(s[1..], n - 1);
    }
  }

  lemma {:induction false} CStrEnds(s: seq<char>)
    ensures CStr(s) == s[..|CStr(s)|] && Clean(CStr(s))
    ensures |CStr(s)| < |s| ==> s[|CStr(s)|] == NUL
  {
    if s == [] || s[0] == NUL {
    } else {
      CStrEnds(s[1..]);
    }
  }

  method StrLen(buf: array<char>, off: nat) returns (n: nat)
    requires exists i :: off <= i < buf.Length && buf[i] == NUL
    ensures off + n < buf.Length && buf[off + n] == NUL
    ensures forall i :: off <= i < off + n ==> buf[i] != NUL
    ensures n == |CStr(buf[off..])|
  {
    n := 0;
    while buf[off + n] != NUL
      invariant off + n < buf.Length
      invariant forall i :: off <= i < off + n ==> buf[i] != NUL
      decreases buf.Length - off - n
    {
      n := n + 1;
    }
    assert buf[off..][..n] == buf[off..off + n];
    CStrIs(buf[off..], n);
  }

  // ----- the output of a command -----

  /** Everything a command writes; it may never stop. */
  datatype Output = Finite(text: string) | Endless(at: nat -> char)

  predicate Has(out: Output, i: nat) { out.Finite? ==> i < |out.text| }

  function At(out: Output, i: nat): char
    requires Has(out, i)
  {
    if out.Finite? then out.text[i] else out.at(i)
  }

  /** The output from position p on, cut after n chars. */
  function Window(out: Output, p: nat, n: nat): (w: string)
    ensures |w| <= n
    decreases n
  {
    if n == 0 || !Has(out, p) then "" else [At(out, p)] + Window(out, p + 1, n - 1)
  }

  lemma {:induction false} WindowSplit(out: Output, p: nat, n: nat, k: nat)
    requires k <= n && |Window(out, p, k)| == k
    ensures Window(out, p, n) == Window(out, p, k) + Window(out, p + k, n - k)
    decreases k
  {
    if k == 0 {
    } else {
      var c := [At(out, p)];
      WindowSplit(out, p + 1, n - 1, k - 1);
      assert Window(out, p, n) == c + Window(out, p + 1, n - 1);
      Assoc(c, Window(out, p + 1, k - 1), Window(out, p + k, n - k));
    }
  }

  lemma {:induction false} WindowSnoc(out: Output, p: nat, k: nat)
    requires |Window(out, p, k)| == k && Has(out, p + k)
    ensures Window(out, p, k + 1) == Window(out, p, k) + [At(out, p + k)]
    decreases k
  {
    if k == 0 {
    } else {
      WindowSnoc(out, p + 1, k - 1);
    }
  }

  lemma {:induction false} WindowOfFinite(t: string, p: nat, n: nat)
    requires p <= |t|
    ensures Window(Finite(t), p, n) == if |t| - p <= n then t[p..] else t[p..p + n]
    decreases n
  {
    if n == 0 || p == |t| {
    } else {
      WindowOfFinite(t, p + 1, n - 1);
    }
  }

  lemma {:induction false} WindowOfEndless(at: nat -> char, p: nat, n: nat)
    ensures |Window(Endless(at), p, n)| == n
    ensures forall i :: 0 <= i < n ==> Window(Endless(at), p, n)[i] == at(p + i)
    decreases n
  {
    if n == 0 {
    } else {
      WindowOfEndless(at, p + 1, n - 1);
      forall i | 0 < i < n ensures Window(Endless(at), p, n)[i] == at(p + i) {
        assert Window(Endless(at), p, n)[i] == Window(Endless(at), p + 1, n - 1)[i - 1] == at(p + 1 + (i - 1));
      }
    }
  }

  /** How many chars `fgets` reads when it has room for n: through the first newline. */
  function Line(out: Output, p: nat, n: nat): (k: nat)
    ensures k <= n
    decreases n
  {
    if n == 0 || !Has(out, p) then 0
    else if At(out, p) == '\n' then 1
    else 1 + Line(out, p + 1, n - 1)
  }

  lemma {:induction false} LineFacts(out: Output, p: nat, n: nat)
    ensures |Window(out, p, Line(out, p, n))| == Line(out, p, n)
    ensures Line(out, p, n) == 0 <==> n == 0 || !Has(out, p)
    decreases n
  {
    if n > 0 && Has(out, p) && At(out, p) != '\n' {
      LineFacts(out, p + 1, n - 1);
    } else if n > 0 && Has(out, p) {
      assert Window(out, p, 1) == [At(out, p)];
    }
  }

  /** The memory from `off` on starts with the text t. */
  ghost predicate Holds(mem: seq<char>, off: nat, t: string) {
    off + |t| <= |mem| && forall j :: off <= j < off + |t| ==> mem[j] == t[j - off]
  }

  /** The memory outside off..off+n is as it was. */
  ghost predicate SameBut(was: seq<char>, mem: seq<char>, off: nat, n: nat) {
    |mem| == |was| && forall j :: 0 <= j < |mem| && !(off <= j < off + n) ==> mem[j] == was[j]
  }

  /** A pipe from `popen`.  C libraries differ on `fgets` with room for the NUL alone:
      `emptyRead` says that it returns an empty string rather than NULL. */
  class Pipe {
    const out: Output
    const emptyRead: bool
    var pos: nat
    /** The commands given to `popen`. */
    var ran: seq<string>

    constructor (out: Output, emptyRead: bool)
      ensures this.out == out && this.emptyRead == emptyRead && pos == 0 && ran == []
    {
      this.out, this.emptyRead, this.pos, this.ran := out, emptyRead, 0, [];
    }

    /** One line of the output and a NUL, in `size` chars of the buffer from `off` on. */
    method Fgets(buf: array<char>, off: nat, size: nat) returns (ok: bool)
      requires 1 <= size && off + size <= buf.Length
      modifies this`pos, buf
      ensures var k := Line(out, old(pos), size - 1);
              && ok == (k > 0 || (size == 1 && emptyRead))
              && pos == old(pos) + k
              && (ok ==> Holds(buf[..], off, Window(out, old(pos), k) + [NUL]))
              && SameBut(old(buf[..]), buf[..], off, if ok then k + 1 else 0)
    {
      var k := 0;
      var stop := false;
      while k < size - 1 && !stop && Has(out, pos)
        invariant k <= size - 1 && pos == old(pos) + k
        invariant Line(out, old(pos), size - 1) == k + if stop then 0 else Line(out, pos, size - 1 - k)
        invariant |Window(out, old(pos), k)| == k && Holds(buf[..], off, Window(out, old(pos), k))
        invariant SameBut(old(buf[..]), buf[..], off, k)
        decreases size - 1 - k
      {
        var c := At(out, pos);
        WindowSnoc(out, old(pos), k);
        buf[off + k] := c;
        stop := c == '\n';
        k, pos := k + 1, pos + 1;
      }
      ok := k > 0 || (size == 1 && emptyRead);
      if ok { buf[off + k] := NUL; }
    }
  }

  // ----- executeCmd -----

  /** What the loop gathers with `room` chars left, for any output at all: each line is
      cut at its first NUL, and a line that starts with NUL ends the capture. */
  function Gathered(out: Output, p: nat, room: nat): string
    decreases room
  {
    if room <= 1 then ""
    else
      var k := Line(out, p, room - 1);
      var kept := CStr(Window(out, p, k));
      if kept == "" then "" else kept + Gathered(out, p + k, room - |kept|)
  }

  lemma {:induction false} GatheredFits(out: Output, p: nat, room: nat)
    requires room >= 1
    ensures Clean(Gathered(out, p, room)) && |Gathered(out, p, room)| < room
    decreases room
  {
    if room == 1 {
    } else {
      var k := Line(out, p, room - 1);
      var kept := CStr(Window(out, p, k));
      CStrEnds(Window(out, p, k));
      if kept != "" {
        var rest := Gathered(out, p + k, room - |kept|);
        assert Gathered(out, p, room) == kept + rest;
        GatheredFits(out, p + k, room - |kept|);
        CleanConcat(kept, rest);
      }
    }
  }

  /** One round of the loop: `fgets`, then `strlen` of what it left. */
  method Round(result: array<char>, p: nat, room: nat, pipe: Pipe) returns (ok: bool, len: nat, ghost kept: string)
    requires 1 <= room && p + room <= result.Length && result[p] == NUL
    modifies result, pipe`pos
    ensures SameBut(old(result[..]), result[..], p, room)
    ensures |kept| == len < room && Clean(kept) && Holds(result[..], p, kept + [NUL])
    ensures Gathered(pipe.out, old(pipe.pos), room) ==
              if !ok || len == 0 then "" else kept + Gathered(pipe.out, pipe.pos, room - len)
    ensures !ok ==> len == 0
  {
    ghost var k := Line(pipe.out, pipe.pos, room - 1);
    ghost var line := Window(pipe.out, pipe.pos, k);
    LineFacts(pipe.out, pipe.pos, room - 1);
    ok := pipe.Fgets(result, p, room);
    len, kept := 0, "";
    if ok {
      kept := CStr(line);
      CStrEnds(line);
      len := MeasureCStr(result, p, line);
    } else {
      assert result[..][p] == NUL;
    }
  }

  /** `strlen` of a place in the buffer that holds a text and a NUL. */
  method MeasureCStr(buf: array<char>, off: nat, ghost t: string) returns (n: nat)
    requires Holds(buf[..], off, t + [NUL])
    ensures n == |CStr(t)| && Holds(buf[..], off, CStr(t) + [NUL])
  {
    CStrEnds(t);
    assert buf[off + |t|] == buf[..][off + |t|] == (t + [NUL])[|t|];
    n := StrLen(buf, off);
    ghost var m := |CStr(t)|;
    assert buf[off + m] == buf[..][off + m] == (t + [NUL])[m] == NUL;
    assert forall i :: off <= i < off + m ==> buf[i] == buf[..][i] == CStr(t)[i - off];
  }

  /** `executeCmd`.  `rounds` counts the iterations of its loop. */
  method ExecuteCmd(cmd: string, result: array<char>, size: nat, opens: bool, pipe: Pipe)
    returns (ghost rounds: nat)
    requires 1 <= size <= result.Length && result[0] == NUL
    requires pipe.pos == 0
    modifies result, pipe`pos, pipe`ran
    ensures pipe.ran == old(pipe.ran) + if cmd == "" then [] else [cmd]
    ensures var t := if cmd == "" || !opens then "" else Gathered(pipe.out, 0, size);
            |t| < size && Clean(t) && Holds(result[..], 0, t + [NUL])
    ensures SameBut(old(result[..]), result[..], 0, size)
    ensures rounds <= size
  {
    rounds := 0;
    if cmd == "" { return; }
    pipe.ran := pipe.ran + [cmd];
    if !opens { return; }
    GatheredFits(pipe.out, 0, size);
    rounds := Gather(result, size, pipe);
  }

  method Gather(result: array<char>, size: nat, pipe: Pipe) returns (ghost rounds: nat)
    requires 1 <= size <= result.Length && result[0] == NUL
    requires pipe.pos == 0
    modifies result, pipe`pos
    ensures Holds(result[..], 0, Gathered(pipe.out, 0, size) + [NUL])
    ensures SameBut(old(result[..]), result[..], 0, size)
    ensures rounds <= size
  {
    rounds := 0;
    var room, p := size, 0;
    ghost var all := Gathered(pipe.out, 0, size);
    ghost var text, rest := "", all;
    while true
      invariant p + room == size && room >= 1 && |text| == p
      invariant Holds(result[..], 0, text + [NUL])
      invariant rest == Gathered(pipe.out, pipe.pos, room)
      invariant text + rest == all
      invariant SameBut(old(result[..]), result[..], 0, size)
      invariant rounds <= p
      decreases room
    {
      ghost var before := result[..];
      var ok, len, kept := Round(result, p, room, pipe);
      rounds := rounds + 1;
      HoldsMore(before, result[..], text, kept, room);
      SameButTwice(old(result[..]), before, result[..], p, size);
      if !ok || len == 0 {
        assert text + kept == text && text + rest == text;
        break;
      }
      room, p := room - len, p + len;
      ghost var more := Gathered(pipe.out, pipe.pos, room);
      assert rest == kept + more;
      Assoc(text, kept, more);
      text, rest := text + kept, more;
    }
  }

  lemma SameButTwice(a: seq<char>, b: seq<char>, c: seq<char>, p: nat, size: nat)
    requires p <= size && SameBut(a, b, 0, size) && SameBut(b, c, p, size - p)
    ensures SameBut(a, c, 0, size)
  {}

  lemma HoldsMore(before: seq<char>, after: seq<char>, text: string, kept: string, room: nat)
    requires Holds(before, 0, text + [NUL]) && SameBut(before, after, |text|, room)
    requires Holds(after, |text|, kept + [NUL])
    ensures Holds(after, 0, text + kept + [NUL])
  {
    var t := text + kept + [NUL];
    forall j | 0 <= j < |t| ensures after[j] == t[j] {
      if j < |text| {
        assert after[j] == before[j] == (text + [NUL])[j];
      } else {
        assert after[j] == (kept + [NUL])[j - |text|];
      }
    }
  }

  // ----- what the capture is worth -----

  /** A NUL-free line is kept whole. */
  lemma GatheredLine(out: Output, p: nat, room: nat)
    requires room > 1 && Has(out, p)
    requires Clean(Window(out, p, Line(out, p, room - 1)))
    ensures var k := Line(out, p, room - 1);
            k > 0 && Gathered(out, p, room) == Window(out, p, k) + Gathered(out, p + k, room - k)
  {
    LineFacts(out, p, room - 1);
    var line := Window(out, p, Line(out, p, room - 1));
    assert line[..|line|] == line;
    CStrIs(line, |line|);
  }

  lemma {:induction false} GatheredNoNul(out: Output, p: nat, room: nat)
    requires room >= 1 && Clean(Window(out, p, room - 1))
    ensures Gathered(out, p, room) == Window(out, p, room - 1)
    decreases room
  {
    if room > 1 && Has(out, p) {
      NoNulLine(out, p, room);
      GatheredNoNul(out, p + Line(out, p, room - 1), room - Line(out, p, room - 1));
    } else {
      NothingGathered(out, p, room);
    }
  }

  lemma {:induction false} NothingGathered(out: Output, p: nat, room: nat)
    requires room >= 1 && (room == 1 || !Has(out, p))
    ensures Gathered(out, p, room) == Window(out, p, room - 1) == ""
  {
    if room > 1 { CStrIs(Window(out, p, 0), 0); }
  }

  lemma NoNulLine(out: Output, p: nat, room: nat)
    requires room > 1 && Has(out, p) && Clean(Window(out, p, room - 1))
    ensures var k := Line(out, p, room - 1);
            && 0 < k
            && Clean(Window(out, p + k, room - 1 - k))
            && Window(out, p, room - 1) == Window(out, p, k) + Window(out, p + k, room - 1 - k)
            && Gathered(out, p, room) == Window(out, p, k) + Gathered(out, p + k, room - k)
  {
    var k := Line(out, p, room - 1);
    LineFacts(out, p, room - 1);
    WindowSplit(out, p, room - 1, k);
    CleanConcat(Window(out, p, k), Window(out, p + k, room - 1 - k));
    GatheredLine(out, p, room);
  }

  /** Exact condition: the buffer holds the first size-1 chars of the output, or all of
      it when shorter, if and only if there is no NUL among them. */
  lemma {:induction false} CaptureIsPrefixIffNoNul(out: Output, size: nat)
    requires size >= 1
    ensures Gathered(out, 0, size) == Window(out, 0, size - 1) <==> Clean(Window(out, 0, size - 1))
  {
    GatheredFits(out, 0, size);
    if Clean(Window(out, 0, size - 1)) { GatheredNoNul(out, 0, size); }
  }

  /** Past a NUL the capture resumes with the next line, so text goes missing. */
  lemma NulDropsText()
    ensures Gathered(Finite("a\0b\nc"), 0, SIZE_1K) == "ac"
  {
    var out := Finite("a\0b\nc");
    assert Line(out, 0, 1023) == 4 && Line(out, 4, 1022) == 1;
    assert Window(out, 0, 4) == "a\0b\n" by { WindowOfFinite("a\0b\nc", 0, 4); }
    assert Window(out, 4, 1) == "c";
    CStrIs("a\0b\n", 1);
    CStrIs("c", 1);
    assert Line(out, 5, 1021) == 0;
    assert Gathered(out, 5, 1022) == "" by { CStrIs("", 0); }
    assert Gathered(out, 4, 1023) == "c" + Gathered(out, 5, 1022);
  }

  /** Output that fits the buffer and has no NUL is captured whole. */
  lemma CaptureOfShortText(t: string)
    requires |t| < SIZE_1K && Clean(t)
    ensures Gathered(Finite(t), 0, SIZE_1K) == t
  {
    WindowOfFinite(t, 0, SIZE_1K - 1);
    GatheredNoNul(Finite(t), 0, SIZE_1K);
  }

  // ----- callers that trim -----

  /** At most one final newline goes. */
  function Trim(t: string): (r: string)
    ensures if t != "" && t[|t| - 1] == '\n' then t == r + "\n" else t == r
  {
    if t != "" && t[|t| - 1] == '\n' then t[..|t| - 1] else t
  }

  /** The body shared by `getNetcardCurSpeed`, `getCurrentResolution_block` and the ends
      of `checkIpConflict_block` and `ping_block`. */
  method CaptureTrimmed(cmd: string, opens: bool, pipe: Pipe) returns (r: string)
    requires cmd != "" && pipe.pos == 0
    modifies pipe`pos, pipe`ran
    ensures pipe.ran == old(pipe.ran) + [cmd]
    ensures r == if opens then Trim(Gathered(pipe.out, 0, SIZE_1K)) else ""
  {
    var result := new char[SIZE_1K](_ => NUL);
    var _ := ExecuteCmd(cmd, result, SIZE_1K, opens, pipe);
    ghost var t := if opens then Gathered(pipe.out, 0, SIZE_1K) else "";
    assert result[0] == result[..][0] == (t + [NUL])[0];
    if result[0] == NUL { return ""; }
    var len := MeasureText(result, t);
    assert result[len - 1] == result[..][len - 1] == (t + [NUL])[len - 1];
    ghost var u := Trim(t);
    if result[len - 1] == '\n' {
      result[len - 1] := NUL;
    }
    assert Holds(result[..], 0, u + [NUL]);
    len := MeasureText(result, u);
    r := result[..len];
  }

  /** A zeroed buffer, `executeCmd`, and the text it now holds. */
  method CaptureText(cmd: string, opens: bool, pipe: Pipe) returns (t: string)
    requires cmd != "" && pipe.pos == 0
    modifies pipe`pos, pipe`ran
    ensures pipe.ran == old(pipe.ran) + [cmd]
    ensures t == if opens then Gathered(pipe.out, 0, SIZE_1K) else ""
  {
    var result := new char[SIZE_1K](_ => NUL);
    var _ := ExecuteCmd(cmd, result, SIZE_1K, opens, pipe);
    ghost var captured := if opens then Gathered(pipe.out, 0, SIZE_1K) else "";
    var len := MeasureText(result, captured);
    t := result[..len];
  }

  /** `strlen` of a whole buffer. */
  method MeasureText(buf: array<char>, ghost t: string) returns (n: nat)
    requires Clean(t) && Holds(buf[..], 0, t + [NUL])
    ensures n == |t| && n < buf.Length && buf[..n] == t
  {
    assert t[..|t|] == t;
    CStrIs(t, |t|);
    n := MeasureCStr(buf, 0, t);
    assert forall i :: 0 <= i < n ==> buf[..n][i] == buf[..][i] == (t + [NUL])[i] == t[i];
  }

  method GetNetcardCurSpeed(opens: bool, pipe: Pipe) returns (r: string)
    requires pipe.pos == 0
    modifies pipe`pos, pipe`ran
    ensures pipe.ran == old(pipe.ran) + ["ethtool eth0 | grep \"Speed:\" | awk '{print $2}'"]
    ensures r == if opens then Trim(Gathered(pipe.out, 0, SIZE_1K)) else ""
  {
    r := CaptureTrimmed("ethtool eth0 | grep \"Speed:\" | awk '{print $2}'", opens, pipe);
  }

  method GetCurrentResolution(opens: bool, pipe: Pipe) returns (r: string)
    requires pipe.pos == 0
    modifies pipe`pos, pipe`ran
    ensures pipe.ran == old(pipe.ran) + ["wm size | grep \"Physical size:\" | awk '{print $3}'"]
    ensures r == if opens then Trim(Gathered(pipe.out, 0, SIZE_1K)) else ""
  {
    r := CaptureTrimmed("wm size | grep \"Physical size:\" | awk '{print $3}'", opens, pipe);
  }

  /** `addressOk` and `linkUp` are the answers of `check_ipaddr` and `getNetcardState`. */
  method CheckIpConflict(ip: string, addressOk: bool, linkUp: bool, opens: bool, pipe: Pipe) returns (r: string)
    requires pipe.pos == 0
    modifies pipe`pos, pipe`ran
    ensures pipe.ran == old(pipe.ran) +
              if addressOk && linkUp then ["checkip " + ip + " -s | grep srcMac | awk '{print $2}'"] else []
    ensures r == if addressOk && linkUp && opens then Trim(Gathered(pipe.out, 0, SIZE_1K)) else ""
    ensures !(addressOk && linkUp) ==> pipe.pos == 0
  {
    if !addressOk { return ""; }
    if !linkUp { return ""; }
    r := CaptureTrimmed("checkip " + ip + " -s | grep srcMac | awk '{print $2}'", opens, pipe);
  }

  method Ping(ip: string, addressOk: bool, count: int, timeout: int, deadline: int, opens: bool, pipe: Pipe)
    returns (r: string)
    requires pipe.pos == 0
    modifies pipe`pos, pipe`ran
    ensures var sent := addressOk && count > 0 && timeout >= 0 && deadline >= 0;
            && r == (if sent && opens then Trim(Gathered(pipe.out, 0, SIZE_1K)) else "")
            && (!sent ==> pipe.pos == 0 && pipe.ran == old(pipe.ran))
            && (sent ==>
                  pipe.ran == old(pipe.ran) + ["ping -c " + Dec(count) + " -W " + Dec(timeout) + " -w " + Dec(deadline)
                                               + " " + ip + " | grep transmitted"])
  {
    if !addressOk { return ""; }
    if count <= 0 || timeout < 0 || deadline < 0 { return ""; }
    var options := "ping -c " + Dec(count) + " -W " + Dec(timeout) + " -w " + Dec(deadline);
    r := CaptureTrimmed(options + " " + ip + " | grep transmitted", opens, pipe);
  }

  /** For NUL-free output the trimming callers return its first 1023 chars less one
      final newline, and the empty string exactly for the outputs "" and "\n". */
  lemma {:induction false} TrimmedNoNul(out: Output)
    requires Clean(Window(out, 0, SIZE_1K - 1))
    ensures var r := Trim(Gathered(out, 0, SIZE_1K));
            && SIZE_1K - 1 == 1023
            && r == Trim(Window(out, 0, SIZE_1K - 1))
            && (r == "" <==> out == Finite("") || out == Finite("\n"))
  {
    GatheredNoNul(out, 0, SIZE_1K);
    TrimmedEmptyIff(out, SIZE_1K - 1);
  }

  lemma {:induction false} TrimmedEmptyIff(out: Output, n: nat)
    requires n >= 2
    ensures Trim(Window(out, 0, n)) == "" <==> out == Finite("") || out == Finite("\n")
  {
    if out.Finite? {
      WindowOfFinite(out.text, 0, n);
    } else {
      assert Window(out, 0, n) == [out.at(0)] + Window(out, 1, n - 1);
      assert Window(out, 1, n - 1) == [out.at(1)] + Window(out, 2, n - 2);
    }
  }
}
