/** TLS records on a byte stream: a whole-stream parse, and the incremental scanner that carries what one
    call could not finish (section 5.1 of RFC 8446). */
module Records {
  import opened Bytes

  const HEADER := 5
  const CAPACITY := 64

  // ---- the whole-stream parse ----

  /** The 16-bit length in the header that starts at `at`. */
  function BodyLength(s: seq<byte>, at: nat): (n: nat)
    requires at + HEADER <= |s|
    ensures n < 65536
  {
    256 * (s[at + 3] as int) + s[at + 4]
  }

  /** A record that starts at `at` is there to its last octet. */
  predicate WholeAt(s: seq<byte>, at: nat) {
    at + HEADER <= |s| && at + HEADER + BodyLength(s, at) <= |s|
  }

  function EndOf(s: seq<byte>, at: nat): nat
    requires at + HEADER <= |s|
  {
    at + HEADER + BodyLength(s, at)
  }

  /** The end offsets of the records from `at` on, in stream order. */
  function EndsFrom(s: seq<byte>, at: nat): (ends: seq<nat>)
    decreases |s| - at
  {
    if WholeAt(s, at) then [EndOf(s, at)] + EndsFrom(s, EndOf(s, at)) else []
  }

  /** Where the unfinished record starts. */
  function TailFrom(s: seq<byte>, at: nat): (t: nat)
    ensures at <= t && !WholeAt(s, t)
    ensures at <= |s| ==> t <= |s|
    decreases |s| - at
  {
    if WholeAt(s, at) then TailFrom(s, EndOf(s, at)) else at
  }

  function Ends(s: seq<byte>): seq<nat> {
    EndsFrom(s, 0)
  }

  function Tail(s: seq<byte>): (t: nat)
    ensures t <= |s| && !WholeAt(s, t)
  {
    TailFrom(s, 0)
  }

  /** The stream stops between two records. */
  predicate Whole(s: seq<byte>) {
    Tail(s) == |s|
  }

  /** What 64 slots keep of a list of ends. */
  function Capped(ends: seq<nat>): seq<nat> {
    ends[..Min(CAPACITY, |ends|)]
  }

  /** Later octets change no record that was whole before them. */
  lemma {:induction false} EndsAppend(s: seq<byte>, t: seq<byte>, at: nat)
    requires at <= |s|
    ensures EndsFrom(s + t, at) == EndsFrom(s, at) + EndsFrom(s + t, TailFrom(s, at))
    ensures TailFrom(s + t, at) == TailFrom(s + t, TailFrom(s, at))
    decreases |s| - at
  {
    if WholeAt(s, at) {
      assert WholeAt(s + t, at) && EndOf(s + t, at) == EndOf(s, at);
      EndsAppend(s, t, EndOf(s, at));
    }
  }

  /** A stream that grows but does not get past the record it is in the middle of: the parse gains that
      record if it is complete now, and nothing otherwise. */
  lemma Grow(s: seq<byte>, t: seq<byte>)
    requires WholeAt(s + t, Tail(s)) ==> EndOf(s + t, Tail(s)) == |s + t|
    ensures Ends(s + t) == if WholeAt(s + t, Tail(s)) then Ends(s) + [|s + t|] else Ends(s)
    ensures Tail(s + t) == if WholeAt(s + t, Tail(s)) then |s + t| else Tail(s)
  {
    EndsAppend(s, t, 0);
    var all := s + t;
    if WholeAt(all, Tail(s)) {
      assert !WholeAt(all, |all|);
      assert EndsFrom(all, |all|) == [];
    }
  }

  /** Octets up to the end of the header at most: only an empty record can end there. */
  lemma HeaderGrows(s: seq<byte>, p: seq<byte>)
    requires 0 < |p| <= HEADER - (|s| - Tail(s))
    ensures var t, at := s + p, Tail(s);
            if |t| - at == HEADER && BodyLength(t, at) == 0 then Ends(t) == Ends(s) + [|t|] && Tail(t) == |t|
            else Ends(t) == Ends(s) && Tail(t) == at
  {
    Grow(s, p);
  }

  /** Octets up to the end of the body at most: the record ends when they are that many. */
  lemma BodyGrows(s: seq<byte>, p: seq<byte>)
    requires Tail(s) + HEADER <= |s| && 0 < |p| <= EndOf(s, Tail(s)) - |s|
    ensures var t, at := s + p, Tail(s);
            if |t| == EndOf(s, at) then Ends(t) == Ends(s) + [|t|] && Tail(t) == |t|
            else Ends(t) == Ends(s) && Tail(t) == at
  {
    assert EndOf(s + p, Tail(s)) == EndOf(s, Tail(s));
    Grow(s, p);
  }

  /** Ends rise strictly and stay inside the stream. */
  lemma {:induction false} EndsRise(s: seq<byte>, at: nat)
    ensures forall e :: e in EndsFrom(s, at) ==> at + HEADER <= e <= |s|
    ensures forall i, j :: 0 <= i < j < |EndsFrom(s, at)| ==> EndsFrom(s, at)[i] < EndsFrom(s, at)[j]
    decreases |s| - at
  {
    if WholeAt(s, at) {
      EndsRise(s, EndOf(s, at));
      var rest := EndsFrom(s, EndOf(s, at));
      assert forall i :: 0 <= i < |rest| ==> rest[i] in rest;
    }
  }

  /** A record starts at `at`, or would. */
  predicate Boundary(s: seq<byte>, at: nat) {
    at == 0 || at in Ends(s)
  }

  lemma {:induction false} TailIsTheLastEnd(s: seq<byte>, at: nat)
    ensures var ends := EndsFrom(s, at); TailFrom(s, at) == if ends == [] then at else ends[|ends| - 1]
    decreases |s| - at
  {
    if WholeAt(s, at) {
      TailIsTheLastEnd(s, EndOf(s, at));
    }
  }

  /** Whatever follows it, the end of a stretch is a boundary exactly when the stretch stops between records. */
  lemma BoundaryIffWhole(s: seq<byte>, t: seq<byte>)
    ensures Boundary(s + t, |s|) <==> Whole(s)
  {
    EndsAppend(s, t, 0);
    NewEndsArePast(s, t);
    TailIsTheLastEnd(s, 0);
    EndsRise(s, 0);
    var ends := Ends(s);
    var more := EndsFrom(s + t, Tail(s));
    assert |s| !in more && Ends(s + t) == ends + more;
    assert |s| in ends + more <==> |s| in ends || |s| in more;
    if |s| in ends {
      var i :| 0 <= i < |ends| && ends[i] == |s|;
      assert ends[|ends| - 1] in ends;
      assert i == |ends| - 1;
    }
  }

  // ---- parsing undoes framing ----

  /** A record as it is put together: type and version, and a body of fewer than 2^16 octets. */
  datatype Fragment = Fragment(kind: byte, major: byte, minor: byte, body: seq<byte>) {
    predicate Valid() {
      |body| < 65536
    }

    function Octets(): seq<byte> {
      [kind, major, minor] + BigEndian(|body|, 2) + body
    }
  }

  ghost predicate Frames(fragments: seq<Fragment>) {
    forall i :: 0 <= i < |fragments| ==> fragments[i].Valid()
  }

  function Stream(fragments: seq<Fragment>): seq<byte> {
    if fragments == [] then []
    else Stream(fragments[..|fragments| - 1]) + fragments[|fragments| - 1].Octets()
  }

  /** Five octets and the body for each record. */
  function Length(fragments: seq<Fragment>): nat {
    if fragments == [] then 0
    else Length(fragments[..|fragments| - 1]) + 5 + |fragments[|fragments| - 1].body|
  }

  function Sums(fragments: seq<Fragment>): (sums: seq<nat>)
    ensures |sums| == |fragments|
  {
    if fragments == [] then [] else Sums(fragments[..|fragments| - 1]) + [Length(fragments)]
  }

  /** What stands at the front of a record says how long it is. */
  lemma LengthFramed(s: seq<byte>, f: Fragment, n: nat)
    requires f.Valid() && n <= 5 + |f.body|
    ensures var t := s + f.Octets()[..n]; WholeAt(t, |s|) <==> n == 5 + |f.body|
    ensures |f.Octets()| == 5 + |f.body| && EndOf(s + f.Octets(), |s|) == |s + f.Octets()|
  {
    var high, low := |f.body| / 256, |f.body| % 256;
    TwoOctets(high, low);
    assert f.Octets()[3] == high && f.Octets()[4] == low;
    var t := s + f.Octets()[..n];
    if n >= 5 {
      assert t[|s| + 3] == high && t[|s| + 4] == low;
    }
  }

  lemma OneMoreRecord(s: seq<byte>, f: Fragment)
    requires Whole(s) && f.Valid()
    ensures Ends(s + f.Octets()) == Ends(s) + [|s| + 5 + |f.body|] && Whole(s + f.Octets())
  {
    LengthFramed(s, f, 5 + |f.body|);
    assert f.Octets()[..5 + |f.body|] == f.Octets();
    Grow(s, f.Octets());
  }

  lemma StreamSnoc(first: seq<Fragment>, last: Fragment)
    ensures Stream(first + [last]) == Stream(first) + last.Octets()
    ensures Length(first + [last]) == Length(first) + 5 + |last.body|
    ensures Sums(first + [last]) == Sums(first) + [Length(first + [last])]
  {
    assert (first + [last])[..|first|] == first;
  }

  /** Records put one after another parse to exactly their ends: the sums of their lengths, and nothing is left. */
  lemma {:induction false} ParsingUndoesFraming(fragments: seq<Fragment>)
    requires Frames(fragments)
    ensures Ends(Stream(fragments)) == Sums(fragments) && Whole(Stream(fragments))
    ensures |Stream(fragments)| == Length(fragments)
  {
    if fragments != [] {
      var first, last := fragments[..|fragments| - 1], fragments[|fragments| - 1];
      assert fragments == first + [last];
      StreamSnoc(first, last);
      ParsingUndoesFraming(first);
      OneMoreRecord(Stream(first), last);
    }
  }

  /** The same behind any stream that stops between records. */
  lemma {:induction false} FramedBehind(s: seq<byte>, fragments: seq<Fragment>)
    requires Whole(s) && Frames(fragments)
    ensures Whole(s + Stream(fragments)) && |Ends(s + Stream(fragments))| == |Ends(s)| + |fragments|
  {
    if fragments == [] {
      assert s + Stream(fragments) == s;
    } else {
      var first, last := fragments[..|fragments| - 1], fragments[|fragments| - 1];
      assert fragments == first + [last];
      StreamSnoc(first, last);
      FramedBehind(s, first);
      OneMoreRecord(s + Stream(first), last);
      assert s + (Stream(first) + last.Octets()) == s + Stream(first) + last.Octets();
    }
  }

  /** Part of one more record adds no end and is what is left over. */
  lemma PartAddsNothing(fragments: seq<Fragment>, f: Fragment, n: nat)
    requires Frames(fragments) && f.Valid() && n < |f.Octets()|
    ensures Ends(Stream(fragments) + f.Octets()[..n]) == Sums(fragments)
    ensures Tail(Stream(fragments) + f.Octets()[..n]) == |Stream(fragments)|
  {
    ParsingUndoesFraming(fragments);
    LengthFramed(Stream(fragments), f, n);
    Grow(Stream(fragments), f.Octets()[..n]);
  }

  /** Every stream that stops between records was put together so, from as many records as it has ends. */
  lemma FramingUndoesParsing(s: seq<byte>) returns (fragments: seq<Fragment>)
    requires Whole(s)
    ensures Frames(fragments) && Stream(fragments) == s && |fragments| == |Ends(s)|
  {
    assert s[..0] == [];
    fragments := RecordsFrom(s, 0, []);
  }

  lemma {:induction false} RecordsFrom(s: seq<byte>, at: nat, before: seq<Fragment>) returns (fragments: seq<Fragment>)
    requires at <= |s| && TailFrom(s, at) == |s| && Frames(before) && Stream(before) == s[..at]
    ensures Frames(fragments) && Stream(fragments) == s && |fragments| == |before| + |EndsFrom(s, at)|
    decreases |s| - at
  {
    fragments := before;
    if !WholeAt(s, at) {
      assert s[..at] == s;
    } else {
      var f := RecordAt(s, at);
      StreamSnoc(before, f);
      assert s[..at] + s[at..EndOf(s, at)] == s[..EndOf(s, at)];
      fragments := RecordsFrom(s, EndOf(s, at), before + [f]);
    }
  }

  lemma RecordAt(s: seq<byte>, at: nat) returns (f: Fragment)
    requires WholeAt(s, at)
    ensures f.Valid() && f.Octets() == s[at..EndOf(s, at)]
  {
    f := Fragment(s[at], s[at + 1], s[at + 2], s[at + 5..EndOf(s, at)]);
    TwoOctets(s[at + 3], s[at + 4]);
  }

  // ---- counting ----

  /** How many of `ends` lie in (after, upto]. */
  function CountIn(ends: seq<nat>, after: nat, upto: nat): (n: nat)
    ensures n <= |ends|
  {
    if ends == [] then 0
    else CountIn(ends[..|ends| - 1], after, upto) + if after < ends[|ends| - 1] <= upto then 1 else 0
  }

  ghost function Within(ends: seq<nat>, after: nat, upto: nat): set<nat> {
    set i | 0 <= i < |ends| && after < ends[i] <= upto
  }

  /** The count is the number of records that end in (after, upto]. */
  lemma {:induction false} CountIsCardinality(ends: seq<nat>, after: nat, upto: nat)
    ensures CountIn(ends, after, upto) == |Within(ends, after, upto)|
  {
    if ends != [] {
      var k := |ends| - 1;
      CountIsCardinality(ends[..k], after, upto);
      var rest := Within(ends[..k], after, upto);
      assert Within(ends, after, upto) == if after < ends[k] <= upto then rest + {k} else rest;
    }
  }

  lemma {:induction false} CountConcat(a: seq<nat>, b: seq<nat>, after: nat, upto: nat)
    ensures CountIn(a + b, after, upto) == CountIn(a, after, upto) + CountIn(b, after, upto)
  {
    if b == [] {
      assert a + b == a;
    } else {
      var k := |b| - 1;
      CountConcat(a, b[..k], after, upto);
      assert (a + b)[..|a + b| - 1] == a + b[..k];
    }
  }

  /** Counts add up over adjoining stretches. */
  lemma {:induction false} CountAdds(ends: seq<nat>, a: nat, b: nat, c: nat)
    requires a <= b <= c
    ensures CountIn(ends, a, b) + CountIn(ends, b, c) == CountIn(ends, a, c)
  {
    if ends != [] {
      CountAdds(ends[..|ends| - 1], a, b, c);
    }
  }

  lemma {:induction false} CountNone(ends: seq<nat>, after: nat, upto: nat)
    requires forall i :: 0 <= i < |ends| ==> !(after < ends[i] <= upto)
    ensures CountIn(ends, after, upto) == 0
  {
    if ends != [] {
      CountNone(ends[..|ends| - 1], after, upto);
    }
  }

  lemma {:induction false} CountAll(ends: seq<nat>, after: nat, upto: nat)
    requires forall i :: 0 <= i < |ends| ==> after < ends[i] <= upto
    ensures CountIn(ends, after, upto) == |ends|
  {
    if ends != [] {
      CountAll(ends[..|ends| - 1], after, upto);
    }
  }

  lemma {:induction false} CountSome(ends: seq<nat>, after: nat, upto: nat, e: nat)
    requires e in ends && after < e <= upto
    ensures CountIn(ends, after, upto) > 0
  {
    if ends[|ends| - 1] != e {
      CountSome(ends[..|ends| - 1], after, upto, e);
    }
  }

  lemma {:induction false} CountZero(ends: seq<nat>, after: nat, upto: nat)
    requires CountIn(ends, after, upto) == 0
    ensures forall i :: 0 <= i < |ends| ==> !(after < ends[i] <= upto)
  {
    if ends != [] {
      CountZero(ends[..|ends| - 1], after, upto);
      assert forall i :: 0 <= i < |ends| - 1 ==> ends[..|ends| - 1][i] == ends[i];
    }
  }

  /** Raising the upper bound past the octets seen changes nothing. */
  lemma {:induction false} CountSaturates(ends: seq<nat>, after: nat, seen: nat, upto: nat)
    requires seen <= upto
    requires forall i :: 0 <= i < |ends| ==> ends[i] <= seen
    ensures CountIn(ends, after, upto) == CountIn(ends, after, seen)
  {
    if ends != [] {
      CountSaturates(ends[..|ends| - 1], after, seen, upto);
    }
  }

  /** Counting up to `upto` needs only the first `upto` octets, however much came after them. */
  lemma CountLooksBackOnly(s: seq<byte>, t: seq<byte>, after: nat, upto: nat)
    requires upto <= |s|
    ensures CountIn(Ends(s + t), after, upto) == CountIn(Ends(s), after, upto)
  {
    EndsAppend(s, t, 0);
    var more := EndsFrom(s + t, Tail(s));
    CountConcat(Ends(s), more, after, upto);
    NewEndsArePast(s, t);
    CountNone(more, after, upto);
  }

  lemma NewEndsArePast(s: seq<byte>, t: seq<byte>)
    ensures forall i :: 0 <= i < |EndsFrom(s + t, Tail(s))| ==> |s| < EndsFrom(s + t, Tail(s))[i] <= |s + t|
  {
    var at, all := Tail(s), s + t;
    if WholeAt(all, at) {
      assert EndOf(all, at) <= |s| ==> WholeAt(s, at);
      EndsRise(all, EndOf(all, at));
      var rest := EndsFrom(all, EndOf(all, at));
      assert forall i :: 0 <= i < |rest| ==> rest[i] in rest;
    }
  }

  /** The 64 slots give the true count exactly when none of the records they missed ends in the stretch asked
      for, and never more than that. */
  lemma CappedCountExact(s: seq<byte>, after: nat, upto: nat)
    ensures CountIn(Capped(Ends(s)), after, upto) == CountIn(Ends(s), after, upto)
       <==> forall i :: CAPACITY <= i < |Ends(s)| ==> !(after < Ends(s)[i] <= upto)
    ensures CountIn(Capped(Ends(s)), after, upto) <= CountIn(Ends(s), after, upto)
  {
    var ends := Ends(s);
    if |ends| > CAPACITY {
      var missed := ends[CAPACITY..];
      assert ends == Capped(ends) + missed;
      CountConcat(Capped(ends), missed, after, upto);
      if forall i :: CAPACITY <= i < |ends| ==> !(after < ends[i] <= upto) {
        CountNone(missed, after, upto);
      } else {
        var i :| CAPACITY <= i < |ends| && after < ends[i] <= upto;
        assert missed[i - CAPACITY] == ends[i];
        CountSome(missed, after, upto, ends[i]);
      }
    } else {
      assert Capped(ends) == ends;
    }
  }

  /** Said by what a caller can see: the slots give the true count exactly when at most 64 records end up to
      `upto`, or none of those that do ends past `after`. */
  lemma CappedCountExactIff(s: seq<byte>, after: nat, upto: nat)
    ensures CountIn(Capped(Ends(s)), after, upto) == CountIn(Ends(s), after, upto)
       <==> CountIn(Ends(s), 0, upto) <= CAPACITY || CountIn(Ends(s), after, upto) == 0
  {
    var ends := Ends(s);
    CappedCountExact(s, after, upto);
    EndsRise(s, 0);
    assert forall i :: 0 <= i < |ends| ==> ends[i] in ends;
    var seen := CountUpTo(ends, upto);
    if CountIn(ends, after, upto) == 0 {
      CountZero(ends, after, upto);
    } else if seen > CAPACITY {
      LastCounted(ends, after, upto, seen);
    }
  }

  /** Rising ends: those up to `upto` are the first ones, as many as counted from the start. */
  lemma {:induction false} CountUpTo(ends: seq<nat>, upto: nat) returns (k: nat)
    requires forall i :: 0 <= i < |ends| ==> ends[i] > 0
    requires forall i, j :: 0 <= i < j < |ends| ==> ends[i] < ends[j]
    ensures k == CountIn(ends, 0, upto) <= |ends|
    ensures forall i :: 0 <= i < |ends| ==> (ends[i] <= upto <==> i < k)
  {
    k := 0;
    if ends != [] {
      var last := |ends| - 1;
      k := CountUpTo(ends[..last], upto);
      if ends[last] <= upto {
        if last > 0 {
          assert ends[..last][last - 1] < ends[last];
        }
        k := k + 1;
      }
    }
  }

  /** If any end lies in the stretch, the last one up to `upto` does. */
  lemma LastCounted(ends: seq<nat>, after: nat, upto: nat, k: nat)
    requires 0 < k <= |ends| && CountIn(ends, after, upto) > 0
    requires forall i, j :: 0 <= i < j < |ends| ==> ends[i] < ends[j]
    requires forall i :: 0 <= i < |ends| ==> (ends[i] <= upto <==> i < k)
    ensures after < ends[k - 1] <= upto
  {
    if ends[k - 1] <= after {
      forall i | 0 <= i < |ends| ensures !(after < ends[i] <= upto) {
        if i < k - 1 {
          assert ends[i] < ends[k - 1];
        }
      }
      CountNone(ends, after, upto);
    }
  }

  lemma CappedPush(ends: seq<nat>, e: nat)
    ensures Capped(ends + [e]) == Capped(ends) + if |ends| < CAPACITY then [e] else []
  {
  }

  // ---- the incremental scanner ----

  class Scanner {
    ghost var seen: seq<byte>    // every octet scanned so far
    var offset: nat
    var bodyLeft: nat
    const head: array<byte>
    var headLen: nat
    const ends: array<nat>
    var count: nat
    var overflowed: bool

    /** The fields are what the whole-stream parse of `seen` says. */
    ghost predicate Valid()
      reads this, head, ends
    {
      && head.Length == HEADER && ends.Length == CAPACITY
      && offset == |seen|
      && count == Min(CAPACITY, |Ends(seen)|)
      && ends[..count] == Capped(Ends(seen))
      && (overflowed <==> |Ends(seen)| > CAPACITY)
      && TailValid()
    }

    ghost predicate TailValid()
      requires head.Length == HEADER
      reads this, head
    {
      var rest := seen[Tail(seen)..];
      if |rest| < HEADER then bodyLeft == 0 && headLen == |rest| && head[..headLen] == rest
      else headLen == 0 && bodyLeft > 0 && |rest| + bodyLeft == HEADER + BodyLength(rest, 0)
    }

    constructor ()
      ensures Valid() && seen == []
      ensures fresh(head) && fresh(ends)
    {
      head := new byte[HEADER](_ => 0);
      ends := new nat[CAPACITY](_ => 0);
      offset, bodyLeft, headLen, count, overflowed := 0, 0, 0, 0, false;
      seen := [];
    }

    /** Notes that a record ended here, while there is a slot for it. */
    method Record()
      requires head.Length == HEADER && ends.Length == CAPACITY && count <= CAPACITY
      modifies this`count, this`overflowed, ends
      ensures count == old(count) + if old(count) < CAPACITY then 1 else 0
      ensures ends[..count] == old(ends[..count]) + if old(count) < CAPACITY then [offset] else []
      ensures overflowed == (old(overflowed) || old(count) >= CAPACITY)
    {
      if count < CAPACITY {
        ends[count] := offset;
        count := count + 1;
      } else {
        overflowed := true;
      }
    }

    /** Keeps octets of a header, as many as it still lacks at most. */
    method Keep(p: seq<byte>)
      requires head.Length == HEADER && headLen + |p| <= HEADER
      modifies this`headLen, head
      ensures headLen == old(headLen) + |p| && head[..headLen] == old(head[..headLen]) + p
    {
      forall i | 0 <= i < |p| {
        head[headLen + i] := p[i];
      }
      headLen := headLen + |p|;
    }

    /** Octets of a header, as many as it still lacks at most. */
    method ScanHeader(p: seq<byte>)
      requires Valid() && bodyLeft == 0 && 0 < |p| <= HEADER - headLen
      modifies this, head, ends
      ensures Valid() && seen == old(seen) + p
    {
      ghost var at := Tail(seen);
      ghost var live := seen[at..] + p;
      HeaderGrows(seen, p);
      CappedPush(Ends(seen), |seen + p|);
      Keep(p);
      offset := offset + |p|;
      seen := seen + p;
      assert head[..headLen] == live && seen[at..] == live;
      if headLen == HEADER {
        assert head[..headLen][3] == live[3];
        assert head[..headLen][4] == live[4];
        bodyLeft := 256 * (head[3] as int) + head[4];
        assert bodyLeft == BodyLength(live, 0) == BodyLength(seen, at);
        headLen := 0;
        if bodyLeft == 0 {
          Record();
        }
      }
    }

    /** Octets of a body, as many as it still lacks at most. */
    method ScanBody(p: seq<byte>)
      requires Valid() && 0 < |p| <= bodyLeft
      modifies this, head, ends
      ensures Valid() && seen == old(seen) + p
    {
      ghost var at, rest := Tail(seen), seen[Tail(seen)..];
      assert BodyLength(seen, at) == BodyLength(rest, 0);
      BodyGrows(seen, p);
      CappedPush(Ends(seen), |seen + p|);
      bodyLeft := bodyLeft - |p|;
      offset := offset + |p|;
      seen := seen + p;
      assert seen[at..] == rest + p;
      if bodyLeft == 0 {
        Record();
      }
    }

    /** One turn of the loop: as much of `p` as the header or the body still lacks. */
    method ScanPiece(p: seq<byte>) returns (got: nat)
      requires Valid() && p != []
      modifies this, head, ends
      ensures Valid() && 0 < got <= |p| && seen == old(seen) + p[..got]
    {
      if bodyLeft == 0 {
        got := Min(|p|, HEADER - headLen);
        ScanHeader(p[..got]);
      } else {
        got := Min(|p|, bodyLeft);
        ScanBody(p[..got]);
      }
    }

    /** Whatever pieces a stream is cut into, the scanner ends up where the parse of the whole stream is. */
    method Scan(p: seq<byte>)
      requires Valid()
      modifies this, head, ends
      ensures Valid() && seen == old(seen) + p
    {
      var rest := p;
      while rest != []
        invariant Valid() && seen + rest == old(seen) + p
        decreases |rest|
      {
        var got := ScanPiece(rest);
        assert rest[..got] + rest[got..] == rest;
        rest := rest[got..];
      }
    }

    /** Counts the recorded ends past `after` and up to `upto`. */
    method Between(after: nat, upto: nat) returns (n: nat)
      requires Valid()
      ensures n == CountIn(Capped(Ends(seen)), after, upto)
    {
      n := 0;
      var i := 0;
      while i < count
        invariant 0 <= i <= count
        invariant n == CountIn(ends[..i], after, upto)
      {
        if ends[i] > after && ends[i] <= upto {
          n := n + 1;
        }
        assert ends[..i + 1][..i] == ends[..i];
        i := i + 1;
      }
    }
  }

  /** A stream leaves one mark on a scanner, however it was cut: same position, same recorded ends, same
      unfinished record, down to the live octets of its header. */
  lemma ChunkIndependence(r: Scanner, q: Scanner)
    requires r.Valid() && q.Valid() && r.seen == q.seen
    ensures r.offset == q.offset && r.bodyLeft == q.bodyLeft
    ensures r.count == q.count && r.ends[..r.count] == q.ends[..q.count] && r.overflowed == q.overflowed
    ensures r.headLen == q.headLen && r.head[..r.headLen] == q.head[..q.headLen]
  {
  }

  /** After records put one after another the scanner stands between two of them and has the first 64 ends. */
  lemma FramedMark(r: Scanner, fragments: seq<Fragment>)
    requires r.Valid() && Frames(fragments) && r.seen == Stream(fragments)
    ensures r.ends[..r.count] == Sums(fragments)[..Min(64, |fragments|)] && r.offset == Length(fragments)
    ensures r.bodyLeft == 0 && r.headLen == 0 && (r.overflowed <==> |fragments| > 64)
  {
    ParsingUndoesFraming(fragments);
  }
}
