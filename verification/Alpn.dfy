/** Protocol lists on the wire (section 3.1 of RFC 7301) and the choice between two of them. */
module Alpn {
  import opened Bytes

  type Name = seq<byte>

  ghost predicate WellFormed(names: seq<Name>) {
    forall i :: 0 <= i < |names| ==> 1 <= |names[i]| <= 255
  }

  /** Every name behind one octet of length. */
  function Encode(names: seq<Name>): (s: seq<byte>)
  {
    if names == [] then [] else [|names[0]| % 256] + names[0] + Encode(names[1..])
  }

  /** The names a list spells, if it is one. */
  function Decode(s: seq<byte>): (r: Option<seq<Name>>)
  {
    if s == [] then Some([])
    else
      var n: nat := s[0];
      if n == 0 || |s| < 1 + n then None
      else match Decode(s[1 + n..])
        case None => None
        case Some(rest) => Some([s[1..1 + n]] + rest)
  }

  lemma DecodeCons(name: Name, tail: seq<byte>)
    requires 1 <= |name| <= 255
    ensures Decode([|name|] + name + tail)
         == match Decode(tail) case None => None case Some(rest) => Some([name] + rest)
  {
    var s := [|name|] + name + tail;
    assert s[0] == |name| && s[1..1 + |name|] == name && s[1 + |name|..] == tail;
  }

  lemma EncodeCons(name: Name, rest: seq<Name>)
    requires 1 <= |name| <= 255
    ensures Encode([name] + rest) == [|name|] + name + Encode(rest)
  {
    assert ([name] + rest)[1..] == rest;
  }

  /** Decoding undoes encoding. */
  lemma {:induction false} DecodeEncode(names: seq<Name>)
    requires WellFormed(names)
    ensures Decode(Encode(names)) == Some(names)
  {
    if names != [] {
      var name, rest := names[0], names[1..];
      assert names == [name] + rest;
      DecodeEncode(rest);
      EncodeCons(name, rest);
      DecodeCons(name, Encode(rest));
    }
  }

  /** Encoding undoes decoding: a list on the wire spells at most one list of names. */
  lemma {:induction false} EncodeDecode(s: seq<byte>)
    requires Decode(s).Some?
    ensures WellFormed(Decode(s).value) && Encode(Decode(s).value) == s
    decreases |s|
  {
    if s != [] {
      var name, tail := s[1..1 + s[0] as int], s[1 + s[0] as int..];
      assert s == [|name|] + name + tail;
      DecodeCons(name, tail);
      EncodeDecode(tail);
      EncodeCons(name, Decode(tail).value);
    }
  }

  lemma {:induction false} EncodeConcat(a: seq<Name>, b: seq<Name>)
    ensures Encode(a + b) == Encode(a) + Encode(b)
  {
    if a == [] {
      assert a + b == b;
    } else {
      EncodeConcat(a[1..], b);
      var head := [|a[0]| % 256] + a[0];
      assert (a + b)[0] == a[0] && (a + b)[1..] == a[1..] + b;
      assert Encode(a + b) == head + (Encode(a[1..]) + Encode(b)) == (head + Encode(a[1..])) + Encode(b);
    }
  }

  /** Where name k stands in the encoding. */
  lemma EncodedAt(names: seq<Name>, k: nat)
    requires WellFormed(names) && k < |names|
    ensures var at, s, n := |Encode(names[..k])|, Encode(names), |names[k]|;
            && at + 1 + n <= |s| && s[at] == n && s[at + 1..at + 1 + n] == names[k]
            && |Encode(names[..k + 1])| == at + 1 + n
  {
    EncodeConcat(names[..k], names[k..]);
    assert names[..k] + names[k..] == names;
    EncodeConcat(names[..k], [names[k]]);
    assert names[..k] + [names[k]] == names[..k + 1];
    var one: seq<Name> := [names[k]];
    assert one[1..] == [];
    assert Encode(one) == [|names[k]|] + names[k];
    assert Encode(names[k..]) == [|names[k]|] + names[k] + Encode(names[k..][1..]);
  }

  /** The earliest name of ours that they offer too. */
  function Choice(ours: seq<Name>, theirs: seq<Name>): Option<Name> {
    if ours == [] then None
    else if ours[0] in theirs then Some(ours[0])
    else Choice(ours[1..], theirs)
  }

  /** The choice is our most preferred name among theirs, and there is none exactly when the lists have
      nothing in common. */
  lemma {:induction false} ChoiceIsOptimal(ours: seq<Name>, theirs: seq<Name>)
    ensures Choice(ours, theirs).None? <==> forall n :: n in ours ==> n !in theirs
    ensures Choice(ours, theirs).Some? ==>
              exists k :: 0 <= k < |ours| && ours[k] == Choice(ours, theirs).value && ours[k] in theirs &&
                          forall j :: 0 <= j < k ==> ours[j] !in theirs
  {
    if ours != [] && ours[0] !in theirs {
      ChoiceIsOptimal(ours[1..], theirs);
      if Choice(ours, theirs).Some? {
        var k :| 0 <= k < |ours[1..]| && ours[1..][k] == Choice(ours, theirs).value && ours[1..][k] in theirs &&
                 forall j :: 0 <= j < k ==> ours[1..][j] !in theirs;
        assert ours[k + 1] == ours[1..][k];
        assert forall j :: 0 <= j < k + 1 ==> ours[j] == if j == 0 then ours[0] else ours[1..][j - 1];
      }
    }
  }

  lemma {:induction false} ChoiceSkips(ours: seq<Name>, theirs: seq<Name>, k: nat)
    requires k <= |ours| && forall j :: 0 <= j < k ==> ours[j] !in theirs
    ensures Choice(ours, theirs) == Choice(ours[k..], theirs)
  {
    if k == 0 {
      assert ours[0..] == ours;
    } else {
      ChoiceSkips(ours[1..], theirs, k - 1);
      assert ours[1..][k - 1..] == ours[k..];
    }
  }

  // ---- which lists are accepted ----

  const CAP := 256

  /** Name k is refused: empty, too long for its length octet, or more than the buffer holds. */
  predicate Refused(names: seq<Name>, k: nat)
    requires k < |names|
  {
    |names[k]| == 0 || |names[k]| > 255 || |Encode(names[..k])| + 1 + |names[k]| > CAP
  }

  /** How many names are written before one is refused. */
  function Fitting(names: seq<Name>, k: nat): (r: nat)
    requires k <= |names|
    ensures k <= r <= |names|
    decreases |names| - k
  {
    if k == |names| || Refused(names, k) then k else Fitting(names, k + 1)
  }

  lemma EncodePrefixGrows(names: seq<Name>, k: nat)
    requires k < |names|
    ensures Encode(names[..k + 1]) == Encode(names[..k]) + [|names[k]| % 256] + names[k]
    ensures |Encode(names[..k])| + 1 + |names[k]| <= |Encode(names)|
  {
    var one: seq<Name> := [names[k]];
    assert names[..k + 1] == names[..k] + one && names == names[..k + 1] + names[k + 1..];
    assert one[1..] == [];
    assert Encode(one) == [|names[k]| % 256] + names[k];
    EncodeConcat(names[..k], one);
    EncodeConcat(names[..k + 1], names[k + 1..]);
  }

  /** A list is accepted, all of it, exactly when it is well formed and its encoding fits. */
  lemma AcceptedIff(names: seq<Name>)
    ensures Fitting(names, 0) == |names| <==> WellFormed(names) && |Encode(names)| <= 256
  {
    FittingAll(names, 0);
    assert names[..|names|] == names;
  }

  lemma {:induction false} FittingAll(names: seq<Name>, k: nat)
    requires k <= |names| && |Encode(names[..k])| <= CAP
    ensures Fitting(names, k) == |names| <==>
            (forall i :: k <= i < |names| ==> 1 <= |names[i]| <= 255) && |Encode(names[..|names|])| <= CAP
    decreases |names| - k
  {
    if k < |names| {
      EncodePrefixGrows(names, k);
      assert names[..|names|] == names;
      if !Refused(names, k) {
        FittingAll(names, k + 1);
      }
    }
  }

  /** What a refused list leaves of the one before it: the names written so far stand over its front, so it is
      still there exactly when they agree with it as far as both go. */
  predicate AgreeSoFar(part: seq<byte>, kept: seq<byte>) {
    var m := Min(|part|, |kept|);
    part[..m] == kept[..m]
  }

  lemma RefusalKeepsIff(part: seq<byte>, kept: seq<byte>, buffer: seq<byte>)
    requires kept <= buffer && |part| <= |buffer|
    ensures kept <= part + buffer[|part|..] <==> AgreeSoFar(part, kept)
  {
    var after, m := part + buffer[|part|..], Min(|part|, |kept|);
    if AgreeSoFar(part, kept) {
      forall i | 0 <= i < |kept| ensures after[i] == kept[i] {
        if i < m {
          assert part[..m][i] == kept[..m][i];
        }
      }
      assert after[..|kept|] == kept;
    }
    if kept <= after {
      assert part[..m] == after[..m] == kept[..m];
    }
  }

  lemma RefusedLeaves(part: seq<byte>, kept: seq<byte>, before: seq<byte>, after: seq<byte>)
    requires |part| <= |before| == |after| && after[..|part|] == part && after[|part|..] == before[|part|..]
    ensures after == part + before[|part|..]
    ensures kept <= before ==> (kept <= after <==> AgreeSoFar(part, kept))
  {
    assert after == after[..|part|] + after[|part|..];
    if kept <= before {
      RefusalKeepsIff(part, kept, before);
    }
  }

  /** A list whose second name is refused puts its first over the front of "h2". */
  lemma ARefusalThatDamages()
    ensures var h2: Name, x: Name := [104, 50], [120];
            Fitting([x, []], 0) == 1 && !AgreeSoFar(Encode([x]), Encode([h2]))
  {
    var h2: Name, x: Name := [104, 50], [120];
    assert [x, []][..0] == [] && [x, []][..1] == [x];
    assert Encode([x])[0] == 1 && Encode([h2])[0] == 2;
    assert Encode([x])[..1] != Encode([h2])[..1] by {
      assert Encode([x])[..1][0] == 1;
      assert Encode([h2])[..1][0] == 2;
    }
    var m := Min(|Encode([x])|, |Encode([h2])|);
    assert m >= 1;
    assert Encode([x])[..m][0] == 1;
    assert Encode([h2])[..m][0] == 2;
  }
}
