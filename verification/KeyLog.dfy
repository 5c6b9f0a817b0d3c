/** Key-log lines, "<label> <random> <secret>", and the two traffic secrets that are kept of them. */
module KeyLog {
  import opened Bytes

  const SECRET_MAX := 64
  const CLIENT_LABEL := "CLIENT_TRAFFIC_SECRET_0"
  const SERVER_LABEL := "SERVER_TRAFFIC_SECRET_0"

  /** A secret's fixed buffer and how much of it counts. */
  datatype Secret = Secret(buffer: seq<byte>, length: nat) {
    ghost predicate Valid() {
      |buffer| == SECRET_MAX && length <= SECRET_MAX
    }

    function Value(): seq<byte>
      requires length <= |buffer|
    {
      buffer[..length]
    }
  }

  function NoSecret(): Secret {
    Secret(seq(SECRET_MAX, _ => 0), 0)
  }

  datatype Slot = ClientSlot | ServerSlot

  // ---- printing ----

  function Digit(v: nat): (c: char)
    requires v < 16
    ensures c != ' ' && c != '\n'
  {
    if v < 10 then ('0' as int + v) as char else ('a' as int + v - 10) as char
  }

  function Hex(s: seq<byte>): (h: string)
    ensures |h| == 2 * |s| && ' ' !in h
  {
    if s == [] then "" else [Digit(s[0] / 16), Digit(s[0] % 16)] + Hex(s[1..])
  }

  function Print(tag: string, random: seq<byte>, secret: seq<byte>): string {
    tag + " " + Hex(random) + " " + Hex(secret)
  }

  // ---- parsing ----

  function DigitValue(c: char): Option<nat> {
    if '0' <= c <= '9' then Some(c as int - '0' as int)
    else if 'a' <= c <= 'f' then Some(c as int - 'a' as int + 10)
    else if 'A' <= c <= 'F' then Some(c as int - 'A' as int + 10)
    else None
  }

  /** The number that at most two hexadecimal digits at `at` spell. */
  function ReadPair(s: string, at: nat): Option<byte>
    requires at < |s|
  {
    match DigitValue(s[at])
    case None => None
    case Some(high) =>
      if at + 1 == |s| then None
      else match DigitValue(s[at + 1])
        case Some(low) => Some(16 * high + low)
        case None => Some(high)
  }

  predicate Stops(s: string, at: nat) {
    at >= |s| || s[at] == ' ' || s[at] == '\n'
  }

  datatype Parsed = Parsed(octets: seq<byte>, complete: bool)

  /** The octets spelled from `at` up to the end of the word, as far as they are well formed and fit. */
  function Parse(s: string, at: nat, room: nat): (r: Parsed)
    ensures |r.octets| <= room
    decreases |s| - at
  {
    if Stops(s, at) then Parsed([], true)
    else if ReadPair(s, at).None? || room == 0 then Parsed([], false)
    else
      var rest := Parse(s, at + 2, room - 1);
      Parsed([ReadPair(s, at).value] + rest.octets, rest.complete)
  }

  /** What parsing leaves in a buffer: the octets over its front, and a new length only when it got through. */
  function Store(was: Secret, s: string, at: nat): (r: Secret)
    requires |was.buffer| == SECRET_MAX
    ensures |r.buffer| == SECRET_MAX
    ensures was.length <= SECRET_MAX ==> r.length <= SECRET_MAX
  {
    var p := Parse(s, at, SECRET_MAX);
    Secret(p.octets + was.buffer[|p.octets|..], if p.complete then |p.octets| else was.length)
  }

  function FindSpace(s: string, at: nat): (r: nat)
    decreases |s| - at
  {
    if at >= |s| || s[at] == ' ' then at else FindSpace(s, at + 1)
  }

  function LabelSlot(line: string): Option<Slot> {
    if CLIENT_LABEL + " " <= line then Some(ClientSlot)
    else if SERVER_LABEL + " " <= line then Some(ServerSlot)
    else None
  }

  /** Both prefixes are this long. */
  const PREFIX := 24

  /** Which slot a line is for and where its secret starts, if it is for one at all. */
  function Target(line: string): (t: Option<(Slot, nat)>)
  {
    match LabelSlot(line)
    case None => None
    case Some(slot) =>
      var sp := FindSpace(line, PREFIX);
      if sp >= |line| then None else Some((slot, sp + 1))
  }

  // ---- parsing undoes printing ----

  function Label(slot: Slot): string {
    if slot.ClientSlot? then CLIENT_LABEL else SERVER_LABEL
  }

  lemma PairRoundTrip(s: string, at: nat, v: byte)
    requires at + 1 < |s| && s[at] == Digit(v / 16) && s[at + 1] == Digit(v % 16)
    ensures !Stops(s, at) && ReadPair(s, at) == Some(v)
  {
    assert DigitValue(s[at]) == Some(v / 16) && DigitValue(s[at + 1]) == Some(v % 16);
  }

  /** Two hexadecimal digits spell sixteen times the first and the second. */
  lemma PairSpells(pre: string, i: nat, j: nat, post: string)
    requires i < 16 && j < 16
    ensures var digits := "0123456789abcdef"; ReadPair(pre + [digits[i], digits[j]] + post, |pre|) == Some(16 * i + j)
    ensures var digits := "0123456789ABCDEF"; ReadPair(pre + [digits[i], digits[j]] + post, |pre|) == Some(16 * i + j)
  {
    DigitSpells(i);
    DigitSpells(j);
  }

  lemma DigitSpells(i: nat)
    requires i < 16
    ensures DigitValue("0123456789abcdef"[i]) == Some(i) == DigitValue("0123456789ABCDEF"[i])
  {
  }

  lemma DigitIff(c: char)
    ensures DigitValue(c).Some? <==> c in "0123456789abcdefABCDEF"
  {
    var digits := "0123456789abcdefABCDEF";
    if '0' <= c <= '9' {
      assert digits[c as int - '0' as int] == c;
    } else if 'a' <= c <= 'f' {
      assert digits[c as int - 'a' as int + 10] == c;
    } else if 'A' <= c <= 'F' {
      assert digits[c as int - 'A' as int + 16] == c;
    }
  }

  /** A word of hexadecimal parses up to what follows it: to its end at a blank or at the end of the line, and no
      further than something that is not a digit. */
  lemma {:induction false} ParseUpTo(pre: string, s: seq<byte>, c: char, post: string, room: nat)
    requires |s| <= room && (DigitValue(c).None? || room == |s|)
    ensures Parse(pre + Hex(s) + [c] + post, |pre|, room) == Parsed(s, c == ' ' || c == '\n')
    decreases s
  {
    if s == [] {
      assert (pre + Hex(s) + [c] + post)[|pre|] == c;
    } else {
      var pair := [Digit(s[0] / 16), Digit(s[0] % 16)];
      var line := pre + pair + Hex(s[1..]) + [c] + post;
      assert line == pre + Hex(s) + [c] + post;
      PairRoundTrip(line, |pre|, s[0]);
      ParseUpTo(pre + pair, s[1..], c, post, room - 1);
    }
  }

  /** A word of hexadecimal that fits becomes the secret if a blank or the end of the line follows it; anything else
      that is not a digit leaves the old length, though the octets before it were written. */
  lemma StoreUpTo(was: Secret, pre: string, s: seq<byte>, c: char, post: string)
    requires was.Valid() && |s| <= 64 && c !in "0123456789abcdefABCDEF"
    ensures Store(was, pre + Hex(s) + [c] + post, |pre|)
         == Secret(s + was.buffer[|s|..], if c == ' ' || c == '\n' then |s| else was.length)
  {
    DigitIff(c);
    ParseUpTo(pre, s, c, post, SECRET_MAX);
  }

  /** Hexadecimal at the end of a line parses back to the octets it spells, or to as many as fit. */
  lemma {:induction false} ParseHex(pre: string, s: seq<byte>, room: nat)
    ensures Parse(pre + Hex(s), |pre|, room) == Parsed(s[..Min(|s|, room)], |s| <= room)
    decreases s
  {
    if s != [] {
      var pair := [Digit(s[0] / 16), Digit(s[0] % 16)];
      var line := pre + pair + Hex(s[1..]);
      assert line == pre + Hex(s);
      PairRoundTrip(line, |pre|, s[0]);
      if room > 0 {
        ParseHex(pre + pair, s[1..], room - 1);
        assert [s[0]] + s[1..][..Min(|s[1..]|, room - 1)] == s[..Min(|s|, room)];
      }
    }
  }

  lemma {:induction false} SpaceAfterHex(pre: string, word: string, post: string)
    requires ' ' !in word
    ensures FindSpace(pre + word + " " + post, |pre|) == |pre| + |word|
    decreases word
  {
    var line := pre + word + " " + post;
    if word == "" {
      assert line[|pre|] == ' ';
    } else {
      assert line[|pre|] == word[0];
      SpaceAfterHex(pre + word[..1], word[1..], post);
      assert pre + word[..1] + word[1..] + " " + post == line;
    }
  }

  /** A printed line is for its label's slot, and parsing its last word gives the secret that was printed,
      or as much of it as fits. */
  lemma ParsingUndoesPrinting(slot: Slot, random: seq<byte>, secret: seq<byte>, was: Secret)
    requires was.Valid()
    ensures var t := Target(Print(Label(slot), random, secret));
            t.Some? && t.value.0 == slot &&
            Store(was, Print(Label(slot), random, secret), t.value.1) == Stored(was, secret)
  {
    var line := Print(Label(slot), random, secret);
    var prefix := Label(slot) + " ";
    LabelPrefixes(slot, line);
    SpaceAfterHex(prefix, Hex(random), Hex(secret));
    assert prefix + Hex(random) + " " + Hex(secret) == line;
    ParseHex(prefix + Hex(random) + " ", secret, SECRET_MAX);
  }

  /** The labels by their text, and the longest secret by its number. */
  lemma LabelsNameTheSlots(slot: Slot, text: string, random: seq<byte>, secret: seq<byte>, was: Secret)
    requires was.Valid()
    requires text == if slot == ClientSlot then "CLIENT_TRAFFIC_SECRET_0" else "SERVER_TRAFFIC_SECRET_0"
    ensures var t := Target(Print(text, random, secret));
            && t.Some? && t.value.0 == slot
            && var after := Store(was, Print(text, random, secret), t.value.1);
               && (|secret| <= 64 ==> after.length == |secret| && after.buffer[..|secret|] == secret)
               && (|secret| > 64 ==> after.length == was.length && after.buffer == secret[..64])
  {
    ParsingUndoesPrinting(slot, random, secret, was);
    StoredUpTo64(was, secret);
  }

  lemma StoredUpTo64(was: Secret, secret: seq<byte>)
    requires was.Valid()
    ensures var after := Stored(was, secret);
            && (|secret| <= 64 ==> after.length == |secret| && after.buffer[..|secret|] == secret)
            && (|secret| > 64 ==> after.length == was.length && after.buffer == secret[..64])
  {
  }

  /** A buffer after a secret was written over its front; one that is too long leaves the old length. */
  function Stored(was: Secret, secret: seq<byte>): (r: Secret)
    requires was.Valid()
    ensures r.Valid()
    ensures |secret| <= SECRET_MAX ==> r.Value() == secret
  {
    var kept := secret[..Min(|secret|, SECRET_MAX)];
    Secret(kept + was.buffer[|kept|..], if |secret| <= SECRET_MAX then |secret| else was.length)
  }

  lemma LabelPrefixes(slot: Slot, line: string)
    requires Label(slot) + " " <= line
    ensures LabelSlot(line) == Some(slot) && |Label(slot) + " "| == PREFIX
  {
    assert line[0] == (Label(slot) + " ")[0];
    assert (CLIENT_LABEL + " ")[0] == 'C' && (SERVER_LABEL + " ")[0] == 'S';
    assert CLIENT_LABEL + " " <= line ==> line[0] == (CLIENT_LABEL + " ")[0];
  }

  /** A line under any other label is for neither slot. */
  lemma OtherLabelsIgnored(tag: string, random: seq<byte>, secret: seq<byte>)
    requires ' ' !in tag && tag != CLIENT_LABEL && tag != SERVER_LABEL
    ensures Target(Print(tag, random, secret)).None?
  {
    var line := Print(tag, random, secret);
    NotThatLabel(tag, CLIENT_LABEL, line);
    NotThatLabel(tag, SERVER_LABEL, line);
  }

  lemma NotThatLabel(tag: string, wanted: string, line: string)
    requires ' ' !in tag && ' ' !in wanted && tag != wanted
    requires tag + " " <= line
    ensures !(wanted + " " <= line)
  {
    if wanted + " " <= line {
      NoLonger(tag, wanted, line);
      NoLonger(wanted, tag, line);
    }
  }

  lemma NoLonger(a: string, b: string, line: string)
    requires ' ' !in b && a + " " <= line && b + " " <= line
    ensures |b| <= |a| && a[..|b|] == b
  {
    assert line[|a|] == (a + " ")[|a|];
    assert forall i :: 0 <= i < |b| ==> line[i] == (b + " ")[i] && b[i] in b;
    assert forall i :: 0 <= i < |a| ==> line[i] == (a + " ")[i];
  }

  // ---- parsing one pair at a time ----

  /** Parsing from `at` gives `done` first and then what parsing from `pos` gives. */
  ghost predicate Extends(s: string, at: nat, done: seq<byte>, pos: nat) {
    |done| <= SECRET_MAX &&
    var rest := Parse(s, pos, SECRET_MAX - |done|);
    Parse(s, at, SECRET_MAX) == Parsed(done + rest.octets, rest.complete)
  }

  lemma ExtendsStep(s: string, at: nat, done: seq<byte>, pos: nat)
    requires Extends(s, at, done, pos)
    ensures if Stops(s, pos) then Parse(s, at, SECRET_MAX) == Parsed(done, true)
            else if ReadPair(s, pos).None? || |done| == SECRET_MAX then Parse(s, at, SECRET_MAX) == Parsed(done, false)
            else Extends(s, at, done + [ReadPair(s, pos).value], pos + 2)
  {
    if Stops(s, pos) || ReadPair(s, pos).None? || |done| == SECRET_MAX {
      assert done + [] == done;
    } else {
      var v, rest := ReadPair(s, pos).value, Parse(s, pos + 2, SECRET_MAX - |done| - 1);
      assert done + ([v] + rest.octets) == done + [v] + rest.octets;
    }
  }

  /** Fills `out` octet by octet, and stops at the first pair that is not hexadecimal or finds no room. */
  method Unhex(s: string, at: nat, out: array<byte>) returns (ok: bool, n: nat)
    requires out.Length == SECRET_MAX
    modifies out
    ensures n <= SECRET_MAX && Parsed(out[..n], ok) == Parse(s, at, SECRET_MAX)
    ensures out[n..] == old(out[n..])
  {
    var pos := at;
    ghost var done: seq<byte> := [];
    ok, n := true, 0;
    while ok && !Stops(s, pos)
      invariant 0 <= n <= SECRET_MAX && |done| == n
      invariant forall i :: 0 <= i < n ==> out[i] == done[i]
      invariant forall i :: n <= i < SECRET_MAX ==> out[i] == old(out[i])
      invariant if ok then Extends(s, at, done, pos) else Parse(s, at, SECRET_MAX) == Parsed(done, false)
      decreases ok, |s| - pos
    {
      ExtendsStep(s, at, done, pos);
      var v := ReadPair(s, pos);
      if v.None? || n >= SECRET_MAX {
        ok := false;
      } else {
        out[n] := v.value;
        done := done + [v.value];
        n, pos := n + 1, pos + 2;
      }
    }
    if ok {
      ExtendsStep(s, at, done, pos);
    }
    assert out[..n] == done;
  }
}
