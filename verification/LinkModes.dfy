/** `getNetcardMaxSpeed`: substring tests on the link modes that ethtool lists. */
module LinkModes {
  import opened Capture
  import opened Decimal

  // ----- the code -----

  predicate OccursAt(text: string, key: string, i: nat) {
    i + |key| <= |text| && text[i..i + |key|] == key
  }

  /** `strstr(text, key) != NULL` */
  predicate Occurs(text: string, key: string) {
    exists i :: 0 <= i <= |text| && OccursAt(text, key, i)
  }

  function SpeedOf(text: string): string {
    if Occurs(text, "1000baseT/Full") then "1000"
    else if Occurs(text, "100baseT/Full") then "100"
    else if Occurs(text, "10baseT/Full") then "10"
    else ""
  }

  method GetNetcardMaxSpeed(opens: bool, pipe: Pipe) returns (r: string)
    requires pipe.pos == 0
    modifies pipe`pos, pipe`ran
    ensures pipe.ran == old(pipe.ran) + ["ethtool eth0 | grep -A2 \"Supported link modes:\""]
    ensures r == SpeedOf(if opens then Gathered(pipe.out, 0, SIZE_1K) else "")
  {
    var result := CaptureText("ethtool eth0 | grep -A2 \"Supported link modes:\"", opens, pipe);
    if Occurs(result, "1000baseT/Full") {
      return "1000";
    } else if Occurs(result, "100baseT/Full") {
      return "100";
    } else if Occurs(result, "10baseT/Full") {
      return "10";
    }
    return "";
  }

  // ----- what ethtool prints -----

  /** A word of the listing: a twisted-pair link mode, or anything else. */
  datatype Word = Mode(speed: nat, full: bool) | Other(text: string)

  /** Words with the white space that follows each. */
  datatype Item = Item(word: Word, gap: string)

  function Keyword(speed: nat): string { Dec(speed) + "baseT/Full" }

  function WordText(w: Word): string {
    match w
    case Mode(n, full) => Dec(n) + if full then "baseT/Full" else "baseT/Half"
    case Other(t) => t
  }

  function Listing(items: seq<Item>): string {
    if items == [] then "" else WordText(items[0].word) + items[0].gap + Listing(items[1..])
  }

  ghost predicate WellSpaced(items: seq<Item>) {
    && (forall i :: 0 <= i < |items| ==> AllSpace(items[i].gap))
    && (forall i :: 0 <= i < |items| - 1 ==> items[i].gap != "")
    && (forall i :: 0 <= i < |items| && items[i].word.Other? ==> KeywordFree(items[i].word.text))
  }

  /** None of the three keywords of the code occurs. */
  ghost predicate KeywordFree(s: string) {
    !Occurs(s, Keyword(1000)) && !Occurs(s, Keyword(100)) && !Occurs(s, Keyword(10))
  }

  ghost predicate NoSlash(s: string) { forall i :: 0 <= i < |s| ==> s[i] != '/' }

  ghost predicate NoSpace(s: string) { forall i :: 0 <= i < |s| ==> !Space(s[i]) }

  // ----- an occurrence stays inside one word -----

  lemma OccursChar(text: string, key: string, i: nat, j: nat)
    requires OccursAt(text, key, i) && j < |key|
    ensures text[i + j] == key[j]
  {
    assert text[i + j] == text[i..i + |key|][j];
  }

  lemma OccursBefore(a: string, rest: string, key: string)
    requires Occurs(a, key)
    ensures Occurs(a + rest, key)
  {
    var i :| 0 <= i <= |a| && OccursAt(a, key, i);
    assert (a + rest)[i..i + |key|] == a[i..i + |key|];
    assert OccursAt(a + rest, key, i);
  }

  lemma OccursAfter(before: string, b: string, key: string)
    requires Occurs(b, key)
    ensures Occurs(before + b, key)
  {
    var i :| 0 <= i <= |b| && OccursAt(b, key, i);
    var j := |before| + i;
    assert (before + b)[j..j + |key|] == b[i..i + |key|];
    assert OccursAt(before + b, key, j);
  }

  lemma OccursOnOneSide(a: string, c: char, b: string, key: string)
    requires Space(c) && NoSpace(key) && key != "" && Occurs(a + [c] + b, key)
    ensures Occurs(a, key) || Occurs(b, key)
  {
    var t := a + [c] + b;
    assert t[..|a|] == a && t[|a| + 1..] == b && t[|a|] == c;
    var i :| 0 <= i <= |t| && OccursAt(t, key, i);
    if i <= |a| < i + |key| {
      OccursChar(t, key, i, |a| - i);
    } else if i + |key| <= |a| {
      assert t[..|a|][i..i + |key|] == t[i..i + |key|];
      assert OccursAt(a, key, i);
    } else {
      var j := i - |a| - 1;
      assert t[|a| + 1..][j..j + |key|] == t[i..i + |key|];
      assert OccursAt(b, key, j);
    }
  }

  lemma OccursAroundSpace(a: string, c: char, b: string, key: string)
    requires Space(c) && NoSpace(key) && key != ""
    ensures Occurs(a + [c] + b, key) <==> Occurs(a, key) || Occurs(b, key)
  {
    if Occurs(a + [c] + b, key) { OccursOnOneSide(a, c, b, key); }
    if Occurs(a, key) {
      OccursBefore(a, [c] + b, key);
      assert a + ([c] + b) == a + [c] + b;
    }
    if Occurs(b, key) { OccursAfter(a + [c], b, key); }
  }

  lemma {:induction false} OccursAroundGap(a: string, gap: string, b: string, key: string)
    requires AllSpace(gap) && gap != "" && NoSpace(key) && key != ""
    ensures Occurs(a + gap + b, key) <==> Occurs(a, key) || Occurs(b, key)
    decreases gap
  {
    var rest := gap[1..];
    assert a + gap + b == a + [gap[0]] + (rest + b);
    OccursAroundSpace(a, gap[0], rest + b, key);
    if rest == "" {
      assert rest + b == b;
    } else {
      OccursAroundGap("", rest, b, key);
      assert "" + rest + b == rest + b;
      assert !Occurs("", key);
    }
  }

  lemma {:induction false} OccursInListing(items: seq<Item>, key: string)
    requires WellSpaced(items) && NoSpace(key) && key != ""
    ensures Occurs(Listing(items), key) <==>
              exists i :: 0 <= i < |items| && Occurs(WordText(items[i].word), key)
  {
    if items != [] {
      var w, gap, rest := WordText(items[0].word), items[0].gap, items[1..];
      OccursInListing(rest, key);
      if gap == "" {
        assert rest == [];
        assert w + gap + Listing(rest) == w;
      } else {
        OccursAroundGap(w, gap, Listing(rest), key);
      }
      if i :| 0 <= i < |rest| && Occurs(WordText(rest[i].word), key) {
        assert items[i + 1] == rest[i];
      }
      if i :| 0 <= i < |items| && Occurs(WordText(items[i].word), key) {
        assert i > 0 ==> rest[i - 1] == items[i];
      }
    } else {
      assert !Occurs("", key);
    }
  }

  // ----- an occurrence inside a link mode lines up with its slash -----

  lemma {:induction false} KeywordShape(speed: nat)
    ensures NoSpace(Keyword(speed))
    ensures var d := |Dec(speed)|; forall i :: 0 <= i < |Keyword(speed)| ==> (Keyword(speed)[i] == '/' <==> i == d + 5)
    ensures Keyword(speed)[|Dec(speed)| + 6] == 'F'
  {
    DecIsDigits(speed);
    var d, k := |Dec(speed)|, Keyword(speed);
    assert forall i :: 0 <= i < |k| ==> k[i] == if i < d then Dec(speed)[i] else "baseT/Full"[i - d];
  }

  function ModeTail(full: bool): string { if full then "baseT/Full" else "baseT/Half" }

  lemma {:induction false} ModeShape(n: nat, full: bool)
    ensures var d, w := |Dec(n)|, WordText(Mode(n, full));
            && w == Dec(n) + ModeTail(full)
            && (forall i :: 0 <= i < |w| ==> (w[i] == '/' <==> i == d + 5))
            && (w[d + 6] == 'F' <==> full)
  {
    DecIsDigits(n);
    var d, w := |Dec(n)|, WordText(Mode(n, full));
    assert forall i :: 0 <= i < |w| ==> w[i] == if i < d then Dec(n)[i] else ModeTail(full)[i - d];
  }

  lemma AlignedHeads(head: string, tail: string, khead: string, ktail: string, i: nat)
    requires OccursAt(head + tail, khead + ktail, i) && i + |khead| == |head|
    ensures Suffix(khead, head)
  {
    forall j | 0 <= j < |khead| ensures head[i..][j] == khead[j] {
      OccursChar(head + tail, khead + ktail, i, j);
    }
  }

  lemma SuffixOccurs(head: string, tail: string, khead: string)
    requires Suffix(khead, head)
    ensures OccursAt(head + tail, khead + tail, |head| - |khead|)
  {
    var i := |head| - |khead|;
    assert (head + tail)[i..] == head[i..] + tail;
  }

  lemma {:induction false} OccursOnlyIn(n: nat, full: bool, speed: nat)
    requires Occurs(WordText(Mode(n, full)), Keyword(speed))
    ensures full && Suffix(Dec(speed), Dec(n))
  {
    var w, key, d, e := WordText(Mode(n, full)), Keyword(speed), |Dec(n)|, |Dec(speed)|;
    ModeShape(n, full);
    KeywordShape(speed);
    var i :| 0 <= i <= |w| && OccursAt(w, key, i);
    OccursChar(w, key, i, e + 5);
    OccursChar(w, key, i, e + 6);
    AlignedHeads(Dec(n), ModeTail(full), Dec(speed), "baseT/Full", i);
  }

  lemma {:induction false} OccursInMode(n: nat, full: bool, speed: nat)
    ensures Occurs(WordText(Mode(n, full)), Keyword(speed)) <==> full && EndsWith(n, speed)
  {
    SuffixIsEndsWith(n, speed);
    if Occurs(WordText(Mode(n, full)), Keyword(speed)) {
      OccursOnlyIn(n, full, speed);
    }
    if full && Suffix(Dec(speed), Dec(n)) {
      SuffixOccurs(Dec(n), "baseT/Full", Dec(speed));
    }
  }

  lemma Misfit(t: string, key: string, i: nat, j: nat)
    requires j < |key| && (i + j < |t| ==> t[i + j] != key[j])
    ensures !OccursAt(t, key, i)
  {
    if i + |key| <= |t| {
      assert t[i..i + |key|][j] == t[i + j];
    }
  }

  /** Words that hold no keyword: those without a slash... */
  lemma NoSlashQualifies(t: string, speed: nat)
    requires NoSlash(t)
    ensures !Occurs(t, Keyword(speed))
  {
    KeywordShape(speed);
    forall i | 0 <= i <= |t| ensures !OccursAt(t, Keyword(speed), i) {
      Misfit(t, Keyword(speed), i, |Dec(speed)| + 5);
    }
  }

  /** ...and the modes of other media, as 1000baseKX/Full, whose slash does not follow a T. */
  lemma OtherMediaQualify(head: string, tail: string, speed: nat)
    requires NoSlash(head) && NoSlash(tail) && (head == "" || head[|head| - 1] != 'T')
    ensures !Occurs(head + "/" + tail, Keyword(speed))
  {
    var t, d := head + "/" + tail, |Dec(speed)|;
    KeywordShape(speed);
    assert Keyword(speed)[d + 4] == 'T';
    forall i | 0 <= i <= |t| ensures !OccursAt(t, Keyword(speed), i) {
      Misfit(t, Keyword(speed), i, if i + d + 5 == |head| then d + 4 else d + 5);
    }
  }

  // ----- the result -----

  ghost predicate FullDuplex(items: seq<Item>, n: nat) {
    exists i :: 0 <= i < |items| && items[i].word == Mode(n, true)
  }

  /** Some full-duplex speed has `speed` as its last digits; `base` is 10 times `speed`. */
  ghost predicate EndsIn(items: seq<Item>, speed: nat, base: nat)
    requires base > 0
  {
    exists i :: 0 <= i < |items| && items[i].word.Mode? && items[i].word.full && items[i].word.speed % base == speed
  }

  lemma {:induction false} KeywordInListing(items: seq<Item>, speed: nat)
    requires WellSpaced(items) && speed in {10, 100, 1000}
    ensures Occurs(Listing(items), Keyword(speed)) <==>
              exists i :: 0 <= i < |items| && items[i].word.Mode? && items[i].word.full
                          && EndsWith(items[i].word.speed, speed)
  {
    KeywordShape(speed);
    OccursInListing(items, Keyword(speed));
    forall i | 0 <= i < |items|
      ensures Occurs(WordText(items[i].word), Keyword(speed)) <==>
                items[i].word.Mode? && items[i].word.full && EndsWith(items[i].word.speed, speed)
    {
      match items[i].word
      case Mode(n, full) => OccursInMode(n, full, speed);
      case Other(t) => assert KeywordFree(t);
    }
  }

  lemma Keywords()
    ensures Keyword(10) == "10baseT/Full" && Keyword(100) == "100baseT/Full" && Keyword(1000) == "1000baseT/Full"
  {
    assert Dec(1) == "1";
    assert Dec(10) == "10";
    assert Dec(100) == "100";
    assert Dec(1000) == "1000";
  }

  /** For every listing: which speeds the substring tests see.  They go by last digits. */
  lemma {:induction false} SpeedGoesByLastDigits(items: seq<Item>)
    requires WellSpaced(items)
    ensures SpeedOf(Listing(items)) ==
              if EndsIn(items, 1000, 10000) then "1000"
              else if EndsIn(items, 100, 1000) then "100"
              else if EndsIn(items, 10, 100) then "10"
              else ""
  {
    Keywords();
    KeywordInListing(items, 1000);
    KeywordInListing(items, 100);
    KeywordInListing(items, 10);
    forall n: nat ensures EndsWith(n, 1000) <==> n % 10000 == 1000 { EndsWith1000(n, 1000); }
    forall n: nat ensures EndsWith(n, 100) <==> n % 1000 == 100 { EndsWith100(n, 100); }
    forall n: nat ensures EndsWith(n, 10) <==> n % 100 == 10 { EndsWith10(n, 10); }
  }

  /** A listing as ethtool prints it. */
  lemma ListingExample()
    ensures SpeedOf("10baseT/Half" + " " + ("100baseT/Full" + "\n")) == "100"
  {
    var items := [Item(Mode(10, false), " "), Item(Mode(100, true), "\n")];
    Keywords();
    assert Dec(1) == "1";
    assert WordText(items[0].word) == "10baseT/Half" && WordText(items[1].word) == Keyword(100);
    assert items[1..] == [items[1]] && items[1..][1..] == [];
    assert Listing(items[1..]) == "100baseT/Full" + "\n";
    assert items[1].word.speed % 1000 == 100;
    SpeedGoesByLastDigits(items);
  }

  /** The promise: the largest of 1000, 100 and 10 advertised as full duplex. */
  ghost function Largest(items: seq<Item>): string {
    if FullDuplex(items, 1000) then "1000"
    else if FullDuplex(items, 100) then "100"
    else if FullDuplex(items, 10) then "10"
    else ""
  }

  /** At the first rank at which some speed has the right last digits, the speed itself
      is there. */
  ghost predicate NoImpostor(items: seq<Item>) {
    if EndsIn(items, 1000, 10000) then FullDuplex(items, 1000)
    else if EndsIn(items, 100, 1000) then FullDuplex(items, 100)
    else EndsIn(items, 10, 100) ==> FullDuplex(items, 10)
  }

  lemma FullEndsInItself(items: seq<Item>)
    ensures FullDuplex(items, 1000) ==> EndsIn(items, 1000, 10000)
    ensures FullDuplex(items, 100) ==> EndsIn(items, 100, 1000)
    ensures FullDuplex(items, 10) ==> EndsIn(items, 10, 100)
  {}

  /** Exact condition for the promise, on every listing that fits the buffer. */
  lemma {:induction false} MaxSpeedIsLargestIff(items: seq<Item>)
    requires WellSpaced(items) && |Listing(items)| < SIZE_1K && Clean(Listing(items))
    ensures Gathered(Finite(Listing(items)), 0, SIZE_1K) == Listing(items)
    ensures SpeedOf(Listing(items)) == Largest(items) <==> NoImpostor(items)
  {
    CaptureOfShortText(Listing(items));
    SpeedGoesByLastDigits(items);
    FullEndsInItself(items);
  }

  /** The promise fails for a speed of 11000, which is reported as 1000. */
  lemma Impostor(gap: string)
    requires AllSpace(gap)
    ensures var items := [Item(Mode(11000, true), gap)];
            WellSpaced(items) && SpeedOf(Listing(items)) == "1000" && Largest(items) == ""
  {
    var items := [Item(Mode(11000, true), gap)];
    assert items[0].word.speed % 10000 == 1000;
    SpeedGoesByLastDigits(items);
  }

  /** Among the speeds Ethernet defines there is no impostor. */
  lemma EthernetSpeedsAreSafe(items: seq<Item>)
    requires forall i :: 0 <= i < |items| && items[i].word.Mode? ==>
               items[i].word.speed in {1, 10, 100, 1000, 2500, 5000, 10000, 25000, 40000, 50000, 100000}
    ensures NoImpostor(items)
  {}
}
