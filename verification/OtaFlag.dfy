/** `getOtaResult`: the update flag in the captured configuration line, read with
    `sscanf` and compared with `strncmp` (sections 7.21.6.2 and 7.24.4.4 of ISO/IEC
    9899:2011).
 */
module OtaFlag {
  import opened Basics
  import opened Capture
  import opened Decimal

  const PREFIX := "updateFlag="
  const SUCCESS := "UPDATE_SUCCESS"

  /** `strncmp(a, b, n) == 0` on C strings, whose end counts as a character. */
  function SameUpTo(a: string, b: string, n: nat): bool {
    if n == 0 then true
    else if a == "" || b == "" then a == b
    else a[0] == b[0] && SameUpTo(a[1..], b[1..], n - 1)
  }

  /** With room for the terminator the comparison is equality; without it, it only asks
      for a prefix. */
  lemma {:induction false} SameUpToIsEquality(a: string, b: string, n: nat)
    ensures n > |b| ==> (SameUpTo(a, b, n) <==> a == b)
    ensures n == |b| ==> (SameUpTo(a, b, n) <==> b <= a)
    decreases n
  {
    if n == 0 || a == "" || b == "" {
    } else {
      SameUpToIsEquality(a[1..], b[1..], n - 1);
      assert a == [a[0]] + a[1..] && b == [b[0]] + b[1..];
    }
  }

  function SkipSpace(s: string): string {
    if s != "" && Space(s[0]) then SkipSpace(s[1..]) else s
  }

  function FirstWord(s: string): string {
    if s == "" || Space(s[0]) then "" else [s[0]] + FirstWord(s[1..])
  }

  /** What `sscanf(text, "updateFlag=%s", buf)` leaves in an empty buffer. */
  function Scanned(text: string): string {
    if PREFIX <= text then FirstWord(SkipSpace(text[|PREFIX|..])) else ""
  }

  method SkipWhite(text: string, from: nat) returns (i: nat)
    requires from <= |text|
    ensures from <= i <= |text| && text[i..] == SkipSpace(text[from..])
  {
    i := from;
    while i < |text| && Space(text[i])
      invariant from <= i <= |text|
      invariant SkipSpace(text[i..]) == SkipSpace(text[from..])
    {
      i := i + 1;
    }
  }

  lemma FirstWordStep(text: string, i: nat)
    requires i < |text| && !Space(text[i])
    ensures FirstWord(text[i..]) == [text[i]] + FirstWord(text[i + 1..])
  {
    assert text[i..][1..] == text[i + 1..];
  }

  method CopyWord(text: string, from: nat, buf: array<char>) returns (n: nat)
    requires from <= |text| < buf.Length
    modifies buf
    ensures n < buf.Length && buf[..n] == FirstWord(text[from..])
  {
    n := 0;
    while from + n < |text| && !Space(text[from + n])
      invariant from + n <= |text|
      invariant FirstWord(text[from..]) == buf[..n] + FirstWord(text[from + n..])
    {
      ghost var done, more := buf[..n], FirstWord(text[from + n + 1..]);
      var c := text[from + n];
      FirstWordStep(text, from + n);
      buf[n] := c;
      assert buf[..n + 1] == done + [c];
      Assoc(done, [c], more);
      n := n + 1;
    }
  }

  /** The directive `%s`: skip white space, then copy up to the next white space.  Nothing
      is stored when there is no word. */
  method ScanWord(text: string, from: nat, buf: array<char>) returns (n: nat)
    requires from <= |text| < buf.Length
    modifies buf
    ensures n < buf.Length && buf[..n] == FirstWord(SkipSpace(text[from..]))
    ensures n > 0 ==> buf[n] == NUL
  {
    var i := SkipWhite(text, from);
    n := CopyWord(text, i, buf);
    if n > 0 {
      ghost var done := buf[..n];
      buf[n] := NUL;
      assert buf[..n] == done;
    }
  }

  method GetOtaResult(opens: bool, pipe: Pipe) returns (ok: bool)
    requires pipe.pos == 0
    modifies pipe`pos, pipe`ran
    ensures pipe.ran == old(pipe.ran) + ["cat /sdcard/com.ruijie.rccstu/config.ini | grep updateFlag"]
    ensures var t := if opens then Gathered(pipe.out, 0, SIZE_1K) else "";
            ok <==> SameUpTo(Scanned(t), SUCCESS, |SUCCESS| + 1)
  {
    var result := CaptureText("cat /sdcard/com.ruijie.rccstu/config.ini | grep updateFlag", opens, pipe);
    if opens { GatheredFits(pipe.out, 0, SIZE_1K); }
    if result == "" { return false; }
    var otaRes := new char[SIZE_1K](_ => NUL);
    var n := 0;
    if PREFIX <= result {
      n := ScanWord(result, |PREFIX|, otaRes);
    }
    ok := SameUpTo(otaRes[..n], SUCCESS, |SUCCESS| + 1);
  }

  // ----- the flag, declaratively -----

  ghost predicate FlagText(text: string, gap: string, rest: string) {
    && AllSpace(gap)
    && (rest == "" || Space(rest[0]))
    && text == PREFIX + gap + SUCCESS + rest
  }

  lemma {:induction false} SkipSpaceSplits(s: string) returns (gap: string)
    ensures AllSpace(gap) && s == gap + SkipSpace(s)
    ensures SkipSpace(s) == "" || !Space(SkipSpace(s)[0])
  {
    if s != "" && Space(s[0]) {
      gap := SkipSpaceSplits(s[1..]);
      gap := [s[0]] + gap;
    } else {
      gap := "";
    }
  }

  lemma {:induction false} FirstWordSplits(s: string) returns (rest: string)
    ensures s == FirstWord(s) + rest && (rest == "" || Space(rest[0]))
  {
    if s == "" || Space(s[0]) {
      rest := s;
    } else {
      rest := FirstWordSplits(s[1..]);
    }
  }

  lemma {:induction false} SkipGap(gap: string, s: string)
    requires AllSpace(gap) && (s == "" || !Space(s[0]))
    ensures SkipSpace(gap + s) == s
  {
    if gap == "" {
      assert gap + s == s;
    } else {
      assert (gap + s)[1..] == gap[1..] + s;
      SkipGap(gap[1..], s);
    }
  }

  lemma {:induction false} WordStops(word: string, rest: string)
    requires (forall i :: 0 <= i < |word| ==> !Space(word[i])) && (rest == "" || Space(rest[0]))
    ensures FirstWord(word + rest) == word
  {
    if word == "" {
      assert word + rest == rest;
    } else {
      assert (word + rest)[1..] == word[1..] + rest;
      WordStops(word[1..], rest);
    }
  }

  lemma Parts(p: string, gap: string, word: string, rest: string)
    ensures p + gap + word + rest == p + (gap + (word + rest))
    ensures p <= p + (gap + (word + rest)) && (p + (gap + (word + rest)))[|p|..] == gap + (word + rest)
  {}

  /** Any text of the declared form scans to the word, whatever the prefix and the word. */
  lemma ScanForm(p: string, gap: string, word: string, rest: string, text: string)
    requires AllSpace(gap) && (rest == "" || Space(rest[0]))
    requires word != "" && forall i :: 0 <= i < |word| ==> !Space(word[i])
    requires text == p + gap + word + rest
    ensures p <= text && FirstWord(SkipSpace(text[|p|..])) == word
  {
    Parts(p, gap, word, rest);
    assert (word + rest)[0] == word[0];
    SkipGap(gap, word + rest);
    WordStops(word, rest);
  }

  lemma FormOfScan(p: string, text: string) returns (gap: string, rest: string)
    requires p <= text
    ensures AllSpace(gap) && (rest == "" || Space(rest[0]))
    ensures text == p + gap + FirstWord(SkipSpace(text[|p|..])) + rest
  {
    var tail := text[|p|..];
    gap := SkipSpaceSplits(tail);
    rest := FirstWordSplits(SkipSpace(tail));
    Parts(p, gap, FirstWord(SkipSpace(tail)), rest);
    assert text == p + tail;
  }

  /** True exactly when the captured text is the prefix, white space, and the word
      UPDATE_SUCCESS standing alone. */
  lemma OtaResultIff(text: string)
    ensures SameUpTo(Scanned(text), SUCCESS, |SUCCESS| + 1) <==> exists gap, rest :: FlagText(text, gap, rest)
    ensures forall gap, rest ::
              FlagText(text, gap, rest) <==>
                && text == "updateFlag=" + gap + "UPDATE_SUCCESS" + rest
                && AllSpace(gap) && (rest == "" || Space(rest[0]))
  {
    SameUpToIsEquality(Scanned(text), SUCCESS, |SUCCESS| + 1);
    if Scanned(text) == SUCCESS {
      var gap, rest := FormOfScan(PREFIX, text);
      assert FlagText(text, gap, rest);
    }
    if gap, rest :| FlagText(text, gap, rest) {
      ScanForm(PREFIX, gap, SUCCESS, rest, text);
    }
  }

  /** The same for every NUL-free output: only its first 1023 chars count. */
  lemma {:induction false} OtaResultOfOutput(out: Output)
    requires Clean(Window(out, 0, SIZE_1K - 1))
    ensures var w := Window(out, 0, SIZE_1K - 1);
            SameUpTo(Scanned(Gathered(out, 0, SIZE_1K)), SUCCESS, |SUCCESS| + 1)
            <==> exists gap, rest :: FlagText(w, gap, rest)
  {
    GatheredNoNul(out, 0, SIZE_1K);
    OtaResultIff(Window(out, 0, SIZE_1K - 1));
  }
}
