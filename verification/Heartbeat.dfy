/** The heartbeat a sender broadcasts, and the receiver's parser for it. */
module Heartbeat {
  import opened Common

  // ---- Decimal numbers ----

  predicate IsDigit(c: char) { '0' <= c <= '9' }

  /** `\w` of an ECMAScript regular expression. */
  predicate IsWord(c: char) { 'a' <= c <= 'z' || 'A' <= c <= 'Z' || IsDigit(c) || c == '_' }

  function Digit(d: nat): (c: char)
    requires d < 10
    ensures IsDigit(c)
  {
    '0' + d as char
  }

  function DigitValue(c: char): (d: nat)
    requires IsDigit(c)
    ensures d < 10
  {
    (c - '0') as nat
  }

  predicate AllDigits(s: string) { forall i {:trigger s[i]} :: 0 <= i < |s| ==> IsDigit(s[i]) }

  predicate AllWord(s: string) { forall i {:trigger s[i]} :: 0 <= i < |s| ==> IsWord(s[i]) }

  function PrintNat(n: nat): (s: string)
    ensures s != [] && AllDigits(s)
  {
    if n < 10 then [Digit(n)] else PrintNat(n / 10) + [Digit(n % 10)]
  }

  function PrintInt(n: int): string { if n < 0 then "-" + PrintNat(-n) else PrintNat(n) }

  function ReadNat(s: string): nat
    requires AllDigits(s)
  {
    if s == [] then 0 else 10 * ReadNat(s[..|s| - 1]) + DigitValue(s[|s| - 1])
  }

  lemma {:induction false} ReadInvertsPrint(n: nat)
    ensures ReadNat(PrintNat(n)) == n
  {
    if n >= 10 {
      ReadInvertsPrint(n / 10);
      assert PrintNat(n)[..|PrintNat(n)| - 1] == PrintNat(n / 10);
    } else {
      assert [Digit(n)][..0] == [];
    }
  }

  // ---- The printer ----

  datatype Item = Item(key: string, value: string)

  function Text(item: Item): string { item.key + ":" + item.value + "," }

  function Join(items: seq<Item>): string {
    if items == [] then "" else Text(items[0]) + Join(items[1..])
  }

  datatype Announcement = Announcement(topic: string, portInsecure: nat, portSecure: nat, id: nat, time: int)

  /** The values fit the sender's fields: two unsigned shorts, a 64-bit id and a signed 64-bit time. */
  predicate InRange(a: Announcement) {
    && a.portInsecure < 0x1_0000 && a.portSecure < 0x1_0000 && a.id < WORD
    && -0x8000_0000_0000_0000 <= a.time < 0x8000_0000_0000_0000
  }

  function Items(a: Announcement): seq<Item> {
    [ Item("topic", a.topic),
      Item("port_insecure", PrintNat(a.portInsecure)), Item("port_secure", PrintNat(a.portSecure)),
      Item("id", PrintNat(a.id)), Item("endian", PrintNat(1)), Item("system_time", PrintInt(a.time)) ]
  }

  /** `broadcastMsgCreator`. */
  function Print(a: Announcement): string { Join(Items(a)) }

  // ---- The search ----

  /** The capture groups the parser uses: `\w+` and `\d+`. */
  datatype Class = Words | Digits

  predicate InClass(c: char, cls: Class) { if cls == Words then IsWord(c) else IsDigit(c) }

  predicate AllIn(s: string, cls: Class) { forall i {:trigger s[i]} :: 0 <= i < |s| ==> InClass(s[i], cls) }

  /** The longest run of the class at the front. */
  function Run(s: string, cls: Class): (r: string)
    ensures r <= s && AllIn(r, cls)
    ensures |r| < |s| ==> !InClass(s[|r|], cls)
  {
    if s == [] || !InClass(s[0], cls) then [] else [s[0]] + Run(s[1..], cls)
  }

  /** Does `key:(class+),` match at the front, and what does its group capture? */
  function MatchFront(s: string, key: string, cls: Class): (v: Option<string>)
    ensures v.Some? ==> v.value != [] && AllIn(v.value, cls)
  {
    if key + ":" <= s then
      var tail := s[|key| + 1..];
      var run := Run(tail, cls);
      if run != [] && |run| < |tail| && tail[|run|] == ',' then Some(run) else None
    else None
  }

  /** `std::regex_search`: the leftmost match. */
  function Search(s: string, key: string, cls: Class): (v: Option<string>)
    ensures v.Some? ==> v.value != [] && AllIn(v.value, cls)
    decreases |s|
  {
    var here := MatchFront(s, key, cls);
    if here.Some? || s == [] then here else Search(s[1..], key, cls)
  }

  /** What it means for the pattern to match at position `i` with capture `v`. */
  ghost predicate MatchesAt(s: string, i: nat, key: string, cls: Class, v: string) {
    i <= |s| && v != [] && AllIn(v, cls) && key + ":" + v + "," <= s[i..]
  }

  lemma FrontIsMatch(s: string, key: string, cls: Class, v: string)
    ensures MatchFront(s, key, cls) == Some(v) <==> MatchesAt(s, 0, key, cls, v)
  {
    if MatchFront(s, key, cls) == Some(v) {
      FrontMatches(s, key, cls, v);
    }
    if MatchesAt(s, 0, key, cls, v) {
      assert s[0..] == s;
      MatchIsFound(s, key, cls, v);
    }
  }

  lemma FrontMatches(s: string, key: string, cls: Class, v: string)
    requires MatchFront(s, key, cls) == Some(v)
    ensures MatchesAt(s, 0, key, cls, v)
  {
    assert s[0..] == s;
    var tail := s[|key| + 1..];
    assert v <= tail && tail[|v|] == ',';
    assert v + "," == tail[..|v| + 1];
    assert s == (key + ":") + tail;
    assert key + ":" + v + "," == (key + ":") + tail[..|v| + 1] == s[..|key| + |v| + 2];
  }

  lemma MatchIsFound(s: string, key: string, cls: Class, v: string)
    requires v != [] && AllIn(v, cls) && key + ":" + v + "," <= s
    ensures MatchFront(s, key, cls) == Some(v)
  {
    var front, tail := key + ":", s[|key| + 1..];
    var m := front + (v + ",");
    assert m == key + ":" + v + ",";
    assert front == m[..|front|] == s[..|front|];
    assert v + "," == m[|front|..] == s[|front|..|m|] == tail[..|v| + 1];
    RunStopsAtComma(tail, v, cls);
  }

  /** No class contains the comma, so the greedy run cannot stop early or run over it. */
  lemma RunStopsAtComma(s: string, v: string, cls: Class)
    requires v + "," <= s && AllIn(v, cls)
    ensures Run(s, cls) == v
  {
    var r := Run(s, cls);
    assert s[|v|] == (v + ",")[|v|] == ',';
    assert |r| >= |v| by {
      assert forall i :: 0 <= i < |v| ==> s[i] == (v + ",")[i] == v[i];
    }
    assert |r| <= |v| by {
      assert forall i :: 0 <= i < |r| ==> s[i] == r[i];
    }
    assert r == s[..|r|] && v == s[..|v|];
  }

  /** The search finds exactly the leftmost match, and finds one if there is one. */
  lemma {:induction false} SearchIsLeftmost(s: string, key: string, cls: Class)
    ensures Search(s, key, cls).Some? ==>
              exists i: nat ::
                && MatchesAt(s, i, key, cls, Search(s, key, cls).value)
                && forall j: nat, v :: j < i ==> !MatchesAt(s, j, key, cls, v)
    ensures Search(s, key, cls).None? ==> forall i: nat, v :: !MatchesAt(s, i, key, cls, v)
    decreases |s|
  {
    var here := MatchFront(s, key, cls);
    if here.Some? {
      FrontIsMatch(s, key, cls, here.value);
      assert MatchesAt(s, 0, key, cls, here.value);
    } else {
      forall v ensures !MatchesAt(s, 0, key, cls, v) {
        FrontIsMatch(s, key, cls, v);
      }
      if s != [] {
        SearchIsLeftmost(s[1..], key, cls);
        forall i: nat, v | i > 0 ensures MatchesAt(s, i, key, cls, v) <==> MatchesAt(s[1..], i - 1, key, cls, v) {
          if i <= |s| {
            assert s[i..] == s[1..][i - 1..];
          }
        }
        if Search(s, key, cls).Some? {
          var v := Search(s, key, cls).value;
          var i: nat :| && MatchesAt(s[1..], i, key, cls, v)
                        && forall j: nat, w :: j < i ==> !MatchesAt(s[1..], j, key, cls, w);
          assert MatchesAt(s, i + 1, key, cls, v);
        }
      }
    }
  }

  // ---- Searching through a list of items ----

  /** Neither separator occurs. */
  predicate Plain(s: string) { ':' !in s && ',' !in s }

  /** The key does not end the other key, so `key:` cannot be found where the other key stands. */
  predicate Apart(key: string, other: string) {
    |key| <= |other| ==> other[|other| - |key|..] != key
  }

  /** A search for `key` finds nothing that starts inside this item. */
  predicate Passes(item: Item, key: string, cls: Class) {
    && Plain(item.key) && Plain(item.value) && Plain(key)
    && (Apart(key, item.key) || (key == item.key && item.value != [] && !InClass(item.value[0], cls)))
  }

  /** The only colon of an item follows its key, so that is where a match would have to have its own. */
  lemma ColonAligns(item: Item, rest: string, key: string, i: nat)
    requires Plain(item.key) && Plain(item.value) && Plain(key) && i < |Text(item)|
    requires key + ":" <= (Text(item) + rest)[i..]
    ensures i + |key| == |item.key| && item.key[i..] == key
  {
    var s, k, q := Text(item) + rest, |item.key|, |item.key| + 1 + |item.value|;
    ColonsOf(item, rest);
    assert forall j :: 0 <= j < |key| ==> s[i..][j] == (key + ":")[j] == key[j];
    assert forall j :: i <= j < i + |key| ==> s[j] == key[j - i];
    assert s[i + |key|] == s[i..][|key|] == (key + ":")[|key|] == ':';
    assert i + |key| == k;
  }

  /** In the text of an item the only colon follows the key, and a comma ends it. */
  lemma ColonsOf(item: Item, rest: string)
    requires Plain(item.key) && Plain(item.value)
    ensures var s, k, q := Text(item) + rest, |item.key|, |item.key| + 1 + |item.value|;
            && s[k] == ':' && s[q] == ',' && (forall j {:trigger s[j]} :: 0 <= j <= q && s[j] == ':' ==> j == k)
            && s[..k] == item.key
  {
    var s, k, q := Text(item) + rest, |item.key|, |item.key| + 1 + |item.value|;
    assert forall j :: 0 <= j < k ==> s[j] == item.key[j];
    assert forall j :: k < j < q ==> s[j] == item.value[j - k - 1];
  }

  /** Nothing is found that starts inside an item the search passes. */
  lemma NothingInside(item: Item, rest: string, key: string, cls: Class, i: nat)
    requires Passes(item, key, cls) && i < |Text(item)|
    ensures MatchFront((Text(item) + rest)[i..], key, cls) == None
  {
    var s := Text(item) + rest;
    if key + ":" <= s[i..] {
      ColonAligns(item, rest, key, i);
      assert i == 0 && key == item.key;
      assert s[0..] == s;
      var tail := s[|key| + 1..];
      assert tail[0] == item.value[0];
    }
  }

  /** A search skips positions where nothing matches. */
  lemma {:induction false} Skip(s: string, n: nat, key: string, cls: Class)
    requires n <= |s| && forall i :: 0 <= i < n ==> MatchFront(s[i..], key, cls) == None
    ensures Search(s, key, cls) == Search(s[n..], key, cls)
    decreases n
  {
    if n > 0 {
      assert s[0..] == s;
      forall i | 0 <= i < n - 1 ensures MatchFront(s[1..][i..], key, cls) == None {
        assert s[1..][i..] == s[i + 1..];
      }
      Skip(s[1..], n - 1, key, cls);
      assert s[1..][n - 1..] == s[n..];
    } else {
      assert s[0..] == s;
    }
  }

  lemma PassesBy(item: Item, rest: string, key: string, cls: Class)
    requires Passes(item, key, cls)
    ensures Search(Text(item) + rest, key, cls) == Search(rest, key, cls)
  {
    var s, n := Text(item) + rest, |Text(item)|;
    forall i | 0 <= i < n ensures MatchFront(s[i..], key, cls) == None {
      NothingInside(item, rest, key, cls, i);
    }
    Skip(s, n, key, cls);
    assert s[n..] == rest;
  }

  /** First-match uniqueness: the search for the k-th key finds the k-th value. */
  lemma {:induction false} FindsItsItem(items: seq<Item>, k: nat, cls: Class)
    requires k < |items| && forall j :: 0 <= j < k ==> Passes(items[j], items[k].key, cls)
    requires items[k].value != [] && AllIn(items[k].value, cls)
    ensures Search(Join(items), items[k].key, cls) == Some(items[k].value)
    decreases k
  {
    if k == 0 {
      var item := items[0];
      assert Text(item) <= Join(items);
      MatchIsFound(Join(items), item.key, cls, item.value);
    } else {
      PassesBy(items[0], Join(items[1..]), items[k].key, cls);
      FindsItsItem(items[1..], k - 1, cls);
    }
  }

  lemma {:induction false} FindsNothing(items: seq<Item>, key: string, cls: Class)
    requires forall j :: 0 <= j < |items| ==> Passes(items[j], key, cls)
    ensures Search(Join(items), key, cls) == None
  {
    if items != [] {
      PassesBy(items[0], Join(items[1..]), key, cls);
      FindsNothing(items[1..], key, cls);
    }
  }

  // ---- The parser ----

  /** The number the search for `key:(\d+),` captures, before `stoull` looks at its size. */
  function NumberAt(str: string, key: string): Option<nat> {
    var digits := Search(str, key, Digits);
    if digits.Some? then Some(ReadNat(digits.value)) else None
  }

  /** What the six searches find, in the order the parser makes them. */
  datatype Findings = Findings(
    topic: Option<string>, port: Option<nat>, secure: Option<nat>,
    id: Option<nat>, endian: Option<nat>, time: Option<nat>)

  function Find(str: string): Findings {
    Findings(Search(str, "topic", Words), NumberAt(str, "port_insecure"), NumberAt(str, "port_secure"),
      NumberAt(str, "id"), NumberAt(str, "endian"), NumberAt(str, "system_time"))
  }

  predicate InWord(number: Option<nat>) { number.Some? ==> number.value < WORD }

  /** `stoull` does not throw for the first `k` numbers. */
  predicate Fits(f: Findings, k: nat) {
    && (k >= 1 ==> InWord(f.port)) && (k >= 2 ==> InWord(f.secure)) && (k >= 3 ==> InWord(f.id))
    && (k >= 4 ==> InWord(f.endian)) && (k >= 5 ==> InWord(f.time))
  }

  /** The cast of a 64-bit unsigned value to `int64_t`. */
  function Signed(n: nat): (r: int)
    ensures n < WORD ==> -0x8000_0000_0000_0000 <= r < 0x8000_0000_0000_0000 && r % WORD == n
  {
    if n < 0x8000_0000_0000_0000 then n else n - WORD
  }

  /** The casts bind to the condition of their `?:`, so a missing port is the truncation of an all-ones word. */
  function Port(number: Option<nat>): (port: nat)
    ensures port < 0x1_0000
    ensures exists q: nat :: (if number.Some? then number.value else WORD - 1) == 0x1_0000 * q + port
  {
    var word := if number.Some? then number.value else WORD - 1;
    assert word == 0x1_0000 * (word / 0x1_0000) + word % 0x1_0000;
    word % 0x1_0000
  }

  function Id(number: Option<nat>): nat { if number.Some? then number.value else 0 }

  function Endianness(number: Option<nat>): (e: nat)
    ensures e == if number.Some? then Port(number) else 0
  {
    if number.Some? then number.value % 0x1_0000 else 0
  }

  function Time(number: Option<nat>): int { if number.Some? then Signed(number.value) else 0 }

  datatype Outcome = Parsed(hadError: bool) | Thrown

  class SenderCharacteristics {
    var topic: string
    var portInsecure: nat
    var portSecure: nat
    var uniqueHandleID: nat
    var endianness: nat
    var time: int

    constructor ()
      ensures topic == "" && portInsecure == portSecure == uniqueHandleID == endianness == 0 && time == 0
    {
      topic, portInsecure, portSecure, uniqueHandleID, endianness, time := "", 0, 0, 0, 0, 0;
    }

    /** Fields before the first number that does not fit are assigned; from there on they keep their values. */
    method Parse(str: string) returns (outcome: Outcome)
      modifies this
      ensures var f := Find(str);
              && outcome == (if Fits(f, 5) then Parsed(f.topic.None?) else Thrown)
              && topic == (if f.topic.Some? then f.topic.value else "")
              && portInsecure == (if Fits(f, 1) then Port(f.port) else old(portInsecure))
              && portSecure == (if Fits(f, 2) then Port(f.secure) else old(portSecure))
              && uniqueHandleID == (if Fits(f, 3) then Id(f.id) else old(uniqueHandleID))
              && endianness == (if Fits(f, 4) then Endianness(f.endian) else old(endianness))
              && time == (if Fits(f, 5) then Time(f.time) else old(time))
    {
      var hadError := false;

      var matches := Search(str, "topic", Words);
      topic := if matches.Some? then matches.value else "";
      hadError := hadError || matches.None?;

      var number := NumberAt(str, "port_insecure");
      if !InWord(number) { return Thrown; }
      portInsecure := Port(number);

      number := NumberAt(str, "port_secure");
      if !InWord(number) { return Thrown; }
      portSecure := Port(number);

      number := NumberAt(str, "id");
      if !InWord(number) { return Thrown; }
      uniqueHandleID := Id(number);

      number := NumberAt(str, "endian");
      if !InWord(number) { return Thrown; }
      endianness := Endianness(number);

      number := NumberAt(str, "system_time");
      if !InWord(number) { return Thrown; }
      time := Time(number);

      return Parsed(hadError);
    }
  }

  // ---- The round trip ----

  /** With these findings the parser reports no error and gives back every field of the announcement. */
  predicate Recovered(f: Findings, a: Announcement) {
    && Fits(f, 5) && f.topic == Some(a.topic) && Port(f.port) == a.portInsecure && Port(f.secure) == a.portSecure
    && Id(f.id) == a.id && Endianness(f.endian) == 1 && Time(f.time) == a.time
  }

  lemma DigitsArePlain(n: nat)
    ensures Plain(PrintNat(n)) && AllIn(PrintNat(n), Digits)
  {
  }

  lemma WordsArePlain(s: string)
    requires AllWord(s)
    ensures Plain(s) && AllIn(s, Words)
  {
  }

  lemma KeysArePlain(a: Announcement)
    ensures forall j :: 0 <= j < 6 ==> Plain(Items(a)[j].key)
  {
  }

  lemma ValuesArePlain(a: Announcement)
    requires AllWord(a.topic)
    ensures forall j :: 0 <= j < 6 ==> Plain(Items(a)[j].value)
  {
    WordsArePlain(a.topic);
    DigitsArePlain(a.portInsecure);
    DigitsArePlain(a.portSecure);
    DigitsArePlain(a.id);
    DigitsArePlain(1);
    MinusIsPlain(a.time);
  }

  lemma MinusIsPlain(time: int)
    ensures Plain(PrintInt(time))
  {
    DigitsArePlain(if time < 0 then -time else time);
  }

  /** No key of the announcement ends another one. */
  lemma KeysAreApart(a: Announcement)
    ensures forall j, k :: 0 <= j < 6 && 0 <= k < 6 && j != k ==> Apart(Items(a)[k].key, Items(a)[j].key)
  {
  }

  lemma FindsNumber(a: Announcement, k: nat, n: nat)
    requires AllWord(a.topic) && k < 6 && Items(a)[k].value == PrintNat(n)
    ensures NumberAt(Print(a), Items(a)[k].key) == Some(n)
  {
    KeysArePlain(a);
    ValuesArePlain(a);
    KeysAreApart(a);
    DigitsArePlain(n);
    FindsItsItem(Items(a), k, Digits);
    ReadInvertsPrint(n);
  }

  lemma FindsTopic(a: Announcement)
    requires a.topic != "" && AllWord(a.topic)
    ensures Search(Print(a), "topic", Words) == Some(a.topic)
  {
    WordsArePlain(a.topic);
    FindsItsItem(Items(a), 0, Words);
  }

  lemma FindsEverything(a: Announcement)
    requires Sendable(a)
    ensures Find(Print(a)) == AllOf(a)
  {
    FindsTopic(a);
    FindsNumber(a, 1, a.portInsecure);
    FindsNumber(a, 2, a.portSecure);
    FindsNumber(a, 3, a.id);
    FindsNumber(a, 4, 1);
    FindsNumber(a, 5, a.time);
  }

  /** A negative time is printed with a sign the parser's pattern does not accept. */
  lemma MissesNegativeTime(a: Announcement)
    requires AllWord(a.topic) && a.time < 0
    ensures Find(Print(a)).time == None
  {
    KeysArePlain(a);
    ValuesArePlain(a);
    KeysAreApart(a);
    FindsNothing(Items(a), Items(a)[5].key, Digits);
  }

  /** What the parser reports as a topic is never empty and never holds a separator. */
  lemma TopicIsWord(str: string)
    ensures Find(str).topic.Some? ==> Find(str).topic.value != "" && AllWord(Find(str).topic.value)
  {
    var topic := Search(str, "topic", Words);
    assert topic.Some? ==> AllIn(topic.value, Words);
  }

  /** The announcements that survive. */
  predicate Sendable(a: Announcement) { a.topic != "" && AllWord(a.topic) && 0 <= a.time }

  function AllOf(a: Announcement): Findings
    requires 0 <= a.time
  {
    Findings(Some(a.topic), Some(a.portInsecure), Some(a.portSecure), Some(a.id), Some(1), Some(a.time))
  }

  lemma RecoveredExactly(f: Findings, a: Announcement)
    requires InRange(a)
    requires Sendable(a) ==> f == AllOf(a)
    requires AllWord(a.topic) && a.time < 0 ==> f.time == None
    requires f.topic.Some? ==> f.topic.value != "" && AllWord(f.topic.value)
    ensures Recovered(f, a) <==> Sendable(a)
  {
  }

  /**
   * The round trip, exactly: the receiver recovers the announcement without error if and only if the topic is
   * a non-empty string of word characters and the time is not negative.
   */
  lemma RoundTrip(a: Announcement)
    requires InRange(a)
    ensures Recovered(Find(Print(a)), a) <==> Sendable(a)
  {
    var f := Find(Print(a));
    assert Sendable(a) ==> f == AllOf(a) by {
      if Sendable(a) { FindsEverything(a); }
    }
    assert AllWord(a.topic) && a.time < 0 ==> f.time == None by {
      if AllWord(a.topic) && a.time < 0 { MissesNegativeTime(a); }
    }
    TopicIsWord(Print(a));
    RecoveredExactly(f, a);
  }

  /** The numbers of an announcement, in the order the parser reads them. */
  function Numbers(a: Announcement): seq<int> { [a.portInsecure, a.portSecure, a.id, 1, a.time] }

  /** A sender with wider fields: the parser stops at the first number that does not fit a 64-bit word, and throws
      exactly if there is one. */
  lemma ThrowsExactly(a: Announcement, k: nat)
    requires Sendable(a) && k <= 5
    ensures Fits(Find(Print(a)), k) <==> forall i :: 0 <= i < k ==> Numbers(a)[i] < 0x1_0000_0000_0000_0000
  {
    FindsEverything(a);
    FitsExactly(a, k);
  }

  lemma FitsExactly(a: Announcement, k: nat)
    requires Sendable(a) && k <= 5
    ensures Fits(AllOf(a), k) <==> forall i :: 0 <= i < k ==> Numbers(a)[i] < 0x1_0000_0000_0000_0000
  {
    var n := Numbers(a);
    assert n[0] == a.portInsecure && n[1] == a.portSecure && n[2] == a.id && n[3] == 1 && n[4] == a.time;
  }

  /** Only a missing topic is an error: with nothing else in the message the ports read as 65535, the rest as 0. */
  lemma TopicAloneIsAccepted(topic: string)
    requires topic != "" && AllWord(topic)
    ensures var f := Find(Text(Item("topic", topic)));
            && Fits(f, 5) && f.topic == Some(topic) && Port(f.port) == Port(f.secure) == 65535
            && Id(f.id) == Endianness(f.endian) == 0 && Time(f.time) == 0
  {
    var item := Item("topic", topic);
    FindsOnlyTopic(item);
    TopicOnly(Find(Text(item)), topic);
  }

  lemma TopicOnly(f: Findings, topic: string)
    requires f == Findings(Some(topic), None, None, None, None, None)
    ensures && Fits(f, 5) && f.topic == Some(topic) && Port(f.port) == Port(f.secure) == 65535
            && Id(f.id) == Endianness(f.endian) == 0 && Time(f.time) == 0
  {
  }

  lemma FindsOnlyTopic(item: Item)
    requires item.key == "topic" && item.value != "" && AllWord(item.value)
    ensures Find(Text(item)) == Findings(Some(item.value), None, None, None, None, None)
  {
    var a := Announcement(item.value, 0, 0, 0, 0);
    assert Join([item]) == Text(item) by { assert [item][1..] == []; }
    WordsArePlain(item.value);
    forall k: nat | 1 <= k < 6 ensures NumberAt(Text(item), Items(a)[k].key) == None {
      TopicHidesNoKey(item, a, k);
      FindsNothing([item], Items(a)[k].key, Digits);
    }
    OnlyTopicFound(Text(item), a);
    FindsItsItem([item], 0, Words);
  }

  lemma OnlyTopicFound(str: string, a: Announcement)
    requires forall k :: 1 <= k < 6 ==> NumberAt(str, Items(a)[k].key) == None
    ensures Find(str) == Findings(Search(str, "topic", Words), None, None, None, None, None)
  {
    assert NumberAt(str, Items(a)[1].key) == None && NumberAt(str, Items(a)[2].key) == None;
    assert NumberAt(str, Items(a)[3].key) == None && NumberAt(str, Items(a)[4].key) == None;
    assert NumberAt(str, Items(a)[5].key) == None;
  }

  lemma TopicHidesNoKey(item: Item, a: Announcement, k: nat)
    requires item.key == "topic" && Plain(item.value) && 1 <= k < 6
    ensures Passes(item, Items(a)[k].key, Digits)
  {
    KeysArePlain(a);
    KeysAreApart(a);
    assert Items(a)[0].key == item.key;
  }
}
