/** Which added certificate a server name picks (section 3 of RFC 6066, section 6.4.3 of RFC 6125). */
module Names {
  import opened Bytes

  function LowerChar(c: char): (r: char)
    ensures r == '.' <==> c == '.'
  {
    if 'A' <= c <= 'Z' then (c as int + 32) as char else c
  }

  /** Equal without regard to letter case. */
  predicate Same(a: string, b: string) {
    |a| == |b| && forall i :: 0 <= i < |a| ==> LowerChar(a[i]) == LowerChar(b[i])
  }

  // What "without regard to letter case" means, character by character.

  predicate UpperOf(u: char, l: char) {
    'A' <= u <= 'Z' && l as int == u as int + 32
  }

  /** At every place the two have one character, or one has a capital letter of ASCII where the other has the small one. */
  predicate OnlyCaseDiffers(a: string, b: string) {
    |a| == |b| && forall i :: 0 <= i < |a| ==> a[i] == b[i] || UpperOf(a[i], b[i]) || UpperOf(b[i], a[i])
  }

  lemma SameIff(a: string, b: string)
    ensures Same(a, b) <==> OnlyCaseDiffers(a, b)
  {
    forall i | 0 <= i < |a| == |b|
      ensures LowerChar(a[i]) == LowerChar(b[i]) <==> a[i] == b[i] || UpperOf(a[i], b[i]) || UpperOf(b[i], a[i])
    {
      LowerIff(a[i], b[i]);
    }
  }

  lemma LowerIff(a: char, b: char)
    ensures LowerChar(a) == LowerChar(b) <==> a == b || UpperOf(a, b) || UpperOf(b, a)
  {
  }

  function FindDot(s: string): (r: Option<nat>)
    ensures r.Some? ==> r.value < |s| && s[r.value] == '.' && '.' !in s[..r.value]
    ensures r.None? ==> '.' !in s
  {
    if s == "" then None
    else if s[0] == '.' then Some(0)
    else match FindDot(s[1..])
      case None => None
      case Some(i) =>
        assert s[..i + 1] == [s[0]] + s[1..][..i];
        Some(i + 1)
  }

  predicate IsWildcard(pattern: string) {
    |pattern| >= 2 && pattern[0] == '*' && pattern[1] == '.'
  }

  predicate Matches(pattern: string, name: string) {
    if IsWildcard(pattern) then
      var dot := FindDot(name);
      dot.Some? && Same(name[dot.value + 1..], pattern[2..])
    else
      Same(pattern, name)
  }

  /** A name made of one dot-free label in front of a suffix. */
  ghost predicate LabelThen(name: string, tag: string, suffix: string) {
    '.' !in tag && name == tag + "." + suffix
  }

  lemma {:induction false} DotEndsTheLabel(name: string, tag: string, suffix: string)
    requires LabelThen(name, tag, suffix)
    ensures FindDot(name) == Some(|tag|) && name[|tag| + 1..] == suffix
    decreases tag
  {
    if tag != "" {
      assert name[0] == tag[0] && tag[0] in tag;
      assert name[1..] == tag[1..] + "." + suffix;
      DotEndsTheLabel(name[1..], tag[1..], suffix);
    }
  }

  /** A pattern that begins with "*." matches exactly the names with one dot-free label in front of what follows,
      letter case aside. */
  lemma WildcardMeaning(wanted: string, name: string)
    ensures Matches("*." + wanted, name) <==>
            exists tag, suffix :: LabelThen(name, tag, suffix) && OnlyCaseDiffers(suffix, wanted)
  {
    var pattern := "*." + wanted;
    assert pattern[2..] == wanted;
    if Matches(pattern, name) {
      var d := FindDot(name).value;
      assert name == name[..d] + "." + name[d + 1..];
      assert LabelThen(name, name[..d], name[d + 1..]);
      SameIff(name[d + 1..], wanted);
    }
    if tag, suffix :| LabelThen(name, tag, suffix) && OnlyCaseDiffers(suffix, wanted) {
      DotEndsTheLabel(name, tag, suffix);
      SameIff(suffix, wanted);
    }
  }

  /** Any other pattern matches exactly itself, letter case aside. */
  lemma PlainMeaning(pattern: string, name: string)
    requires !("*." <= pattern)
    ensures Matches(pattern, name) <==> OnlyCaseDiffers(pattern, name)
  {
    SameIff(pattern, name);
  }

  /** The documented rule, one label, asks for a label that is not empty. It is met by what matches and does
      not begin with a dot; the code itself also lets the empty label through. */
  lemma OneLabelIff(wanted: string, name: string)
    ensures (exists tag, suffix :: tag != "" && LabelThen(name, tag, suffix) && OnlyCaseDiffers(suffix, wanted))
       <==> Matches("*." + wanted, name) && name != "" && name[0] != '.'
  {
    WildcardMeaning(wanted, name);
    if tag, suffix :| tag != "" && LabelThen(name, tag, suffix) && OnlyCaseDiffers(suffix, wanted) {
      assert name[0] == tag[0] && tag[0] in tag;
    }
  }

  lemma EmptyLabelMatches()
    ensures Matches("*.example.com", ".example.com")
  {
    assert ".example.com"[1..] == "*.example.com"[2..];
  }

  /** No two names are the same but for letter case: what adding a name insists on. */
  ghost predicate Distinct(hosts: seq<string>) {
    forall i, j :: 0 <= i < j < |hosts| ==> !Same(hosts[i], hosts[j])
  }

  lemma SameKindSame(p: string, q: string, name: string)
    requires Matches(p, name) && Matches(q, name) && IsWildcard(p) == IsWildcard(q)
    ensures Same(p, q)
  {
    if IsWildcard(p) {
      assert Same(p[2..], q[2..]);
      forall i | 0 <= i < |p| ensures LowerChar(p[i]) == LowerChar(q[i]) {
        if i >= 2 {
          assert p[i] == p[2..][i - 2] && q[i] == q[2..][i - 2];
        }
      }
    }
  }

  ghost function Matching(hosts: seq<string>, name: string): set<int> {
    set i | 0 <= i < |hosts| && Matches(hosts[i], name)
  }

  /** At most one exact name and one wildcard match any name. */
  lemma AtMostTwoMatch(hosts: seq<string>, name: string)
    requires Distinct(hosts)
    ensures |Matching(hosts, name)| <= 2
  {
    var all := Matching(hosts, name);
    if all != {} {
      var i :| i in all;
      var rest := all - {i};
      if rest != {} {
        var j :| j in rest;
        forall k | k in all ensures k in {i, j} {
          if k != i && k != j {
            PairOfOneKind(hosts, name, i, j);
            PairOfOneKind(hosts, name, i, k);
            PairOfOneKind(hosts, name, j, k);
          }
        }
        assert all == {i, j};
      } else {
        assert all == {i};
      }
    }
  }

  /** Of two added names that match the same name one is a wildcard and the other is not. */
  lemma PairOfOneKind(hosts: seq<string>, name: string, i: int, j: int)
    requires Distinct(hosts) && i in Matching(hosts, name) && j in Matching(hosts, name) && i != j
    ensures IsWildcard(hosts[i]) != IsWildcard(hosts[j])
  {
    if IsWildcard(hosts[i]) == IsWildcard(hosts[j]) {
      SameKindSame(hosts[i], hosts[j], name);
      SameKindSame(hosts[j], hosts[i], name);
    }
  }

  /** The earliest added name that matches. */
  function FirstMatch(hosts: seq<string>, name: string): (r: Option<nat>)
    ensures r.Some? ==> r.value < |hosts| && Matches(hosts[r.value], name) &&
                        forall i :: 0 <= i < r.value ==> !Matches(hosts[i], name)
    ensures r.None? ==> forall i :: 0 <= i < |hosts| ==> !Matches(hosts[i], name)
  {
    if hosts == [] then None
    else
      var k := |hosts| - 1;
      match FirstMatch(hosts[..k], name)
      case Some(i) =>
        assert forall j :: 0 <= j <= i ==> hosts[..k][j] == hosts[j];
        Some(i)
      case None =>
        assert forall j :: 0 <= j < k ==> hosts[..k][j] == hosts[j];
        if Matches(hosts[k], name) then Some(k) else None
  }

  /** Adding a name never changes the answer for a name that had one. */
  lemma AddingKeepsMatches(hosts: seq<string>, more: string, name: string)
    requires FirstMatch(hosts, name).Some?
    ensures FirstMatch(hosts + [more], name) == FirstMatch(hosts, name)
  {
    assert (hosts + [more])[..|hosts|] == hosts;
  }

  lemma MatchesIgnoresCase(pattern: string, a: string, b: string)
    requires Same(a, b)
    ensures Matches(pattern, a) == Matches(pattern, b)
  {
    SameDot(a, b);
    if IsWildcard(pattern) && FindDot(a).Some? {
      var k := FindDot(a).value + 1;
      assert forall i :: 0 <= i < |a| - k ==> a[k..][i] == a[k + i] && b[k..][i] == b[k + i];
      assert Same(a[k..], b[k..]);
    }
  }

  lemma {:induction false} SameDot(a: string, b: string)
    requires Same(a, b)
    ensures FindDot(a) == FindDot(b)
  {
    if a != "" {
      assert forall i :: 0 <= i < |a| - 1 ==> a[1..][i] == a[i + 1] && b[1..][i] == b[i + 1];
      SameDot(a[1..], b[1..]);
      assert LowerChar(a[0]) == LowerChar(b[0]);
    }
  }

  /** The answer does not depend on letter case. */
  lemma {:induction false} AnswerIgnoresCase(hosts: seq<string>, a: string, b: string)
    requires OnlyCaseDiffers(a, b)
    ensures FirstMatch(hosts, a) == FirstMatch(hosts, b)
  {
    SameIff(a, b);
    if hosts != [] {
      AnswerIgnoresCase(hosts[..|hosts| - 1], a, b);
      MatchesIgnoresCase(hosts[|hosts| - 1], a, b);
    }
  }
}
