/** Looking for a name in a file through a fixed buffer that carries the end of one read over to the next. */
module FileSearch {
  import opened Bytes

  const BUFFER := 4096

  ghost predicate OccursAt(want: seq<byte>, s: seq<byte>, i: int) {
    0 <= i && i + |want| <= |s| && s[i..i + |want|] == want
  }

  ghost predicate Occurs(want: seq<byte>, s: seq<byte>) {
    exists i :: OccursAt(want, s, i)
  }

  lemma SliceOfSlice(s: seq<byte>, from: nat, upto: nat, i: nat, n: nat)
    requires from + i + n <= upto <= |s|
    ensures s[from..upto][i..i + n] == s[from + i..from + i + n]
  {
    var a, b := s[from..upto][i..i + n], s[from + i..from + i + n];
    forall k | 0 <= k < n ensures a[k] == b[k] {
      assert a[k] == s[from..upto][i + k];
    }
  }

  lemma OccursEarly(want: seq<byte>, s: seq<byte>, i: nat, pos: nat)
    requires OccursAt(want, s, i) && i + |want| <= pos <= |s|
    ensures Occurs(want, s[..pos])
  {
    SliceOfSlice(s, 0, pos, i, |want|);
    assert OccursAt(want, s[..pos], i);
  }

  /** An occurrence that was not among the first `pos` octets starts inside the window that goes back one
      octet less than the name is long. */
  lemma OccursInWindow(want: seq<byte>, s: seq<byte>, pos: nat, from: nat, upto: nat)
    requires want != [] && from <= pos <= upto <= |s| && (from == 0 || from + |want| == pos + 1)
    requires !Occurs(want, s[..pos])
    ensures Occurs(want, s[..upto]) <==> Occurs(want, s[from..upto])
  {
    if i :| OccursAt(want, s[..upto], i) {
      SliceOfSlice(s, 0, upto, i, |want|);
      if i + |want| <= pos {
        OccursEarly(want, s, i, pos);
        assert false;
      }
      SliceOfSlice(s, from, upto, i - from, |want|);
      assert OccursAt(want, s[from..upto], i - from);
    }
    if j :| OccursAt(want, s[from..upto], j) {
      SliceOfSlice(s, from, upto, j, |want|);
      SliceOfSlice(s, 0, upto, from + j, |want|);
      assert OccursAt(want, s[..upto], from + j);
    }
  }

  /** Searches the first `have` octets of the buffer. */
  method SearchBuffer(buf: array<byte>, have: nat, want: seq<byte>) returns (found: bool)
    requires have <= buf.Length && want != []
    ensures found <==> Occurs(want, buf[..have])
  {
    found := false;
    if have >= |want| {
      var i := 0;
      while i <= have - |want| && !found
        invariant 0 <= i <= have - |want| + 1
        invariant found ==> Occurs(want, buf[..have])
        invariant !found ==> forall j :: 0 <= j < i ==> !OccursAt(want, buf[..have], j)
        decreases have - i, !found
      {
        assert buf[..have][i..i + |want|] == buf[i..i + |want|];
        if buf[i] == want[0] && buf[i..i + |want|] == want {
          assert OccursAt(want, buf[..have], i);
          found := true;
        } else {
          assert !OccursAt(want, buf[..have], i);
          i := i + 1;
        }
      }
    }
  }

  method ReadInto(buf: array<byte>, held: nat, chunk: seq<byte>)
    requires held + |chunk| <= buf.Length
    modifies buf
    ensures buf[..held + |chunk|] == old(buf[..held]) + chunk
  {
    forall i | 0 <= i < |chunk| {
      buf[held + i] := chunk[i];
    }
  }

  /** Moves the last `held` of the first `have` octets to the front. */
  method Carry(buf: array<byte>, have: nat, held: nat)
    requires held <= have <= buf.Length
    modifies buf
    ensures buf[..held] == old(buf[have - held..have])
  {
    forall i | 0 <= i < held {
      buf[i] := buf[have - held + i];
    }
  }

  /** Reads the file in pieces the system chooses, down to one octet each, until the name was seen, the file
      ends or a read fails; `pos` octets were read. A name that fits the buffer is found exactly when it
      occurs in what was read, wherever the reads cut it; a longer one never is. */
  method FileNames(file: seq<byte>, want: seq<byte>) returns (found: bool, pos: nat, failed: bool)
    requires want != []
    ensures pos <= |file|
    ensures found <==> |want| <= 4096 && Occurs(want, file[..pos])
    ensures !failed ==> (found <==> |want| <= 4096 && Occurs(want, file))
  {
    var buf := new byte[BUFFER](_ => 0);
    var held: nat := 0;
    found, pos, failed := false, 0, false;
    while true
      invariant held == Min(|want| - 1, pos) && held <= BUFFER && pos <= |file|
      invariant buf[..held] == file[pos - held..pos]
      invariant !Occurs(want, file[..pos])
      decreases |file| - pos
    {
      failed := *;
      var room := Min(BUFFER - held, |file| - pos);
      if failed || room == 0 {
        assert pos == |file| ==> file[..pos] == file;
        return;
      }
      var n: nat :| 1 <= n <= room;
      ReadInto(buf, held, file[pos..pos + n]);
      var have := held + n;
      assert buf[..have] == file[pos - held..pos + n];
      OccursInWindow(want, file, pos, pos - held, pos + n);
      found := SearchBuffer(buf, have, want);
      pos := pos + n;
      if found {
        LongNamesDoNotFit(want, buf[..have]);
        OccursInMore(want, file, pos);
        return;
      }
      held := if |want| - 1 < have then |want| - 1 else have;
      Carry(buf, have, held);
    }
  }

  lemma LongNamesDoNotFit(want: seq<byte>, s: seq<byte>)
    requires Occurs(want, s)
    ensures |want| <= |s|
  {
  }

  lemma OccursInMore(want: seq<byte>, s: seq<byte>, pos: nat)
    requires pos <= |s| && Occurs(want, s[..pos])
    ensures Occurs(want, s)
  {
    var i :| OccursAt(want, s[..pos], i);
    assert s[..pos][i..i + |want|] == s[i..i + |want|];
    assert OccursAt(want, s, i);
  }
}
