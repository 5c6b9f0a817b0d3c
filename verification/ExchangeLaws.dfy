/** What holds of one exchange whatever OpenSSL and the caller do: conservation of octets over every run,
    boundaries that never move, what a blob's sequence says, and when letting the SSL go changes no answer. */
module ExchangeLaws {
  import opened Bytes
  import opened Records
  import opened KeyLog
  import opened KeyChain
  import X = Exchange

  // ---- runs ----

  datatype Call =
    | Feed(bytes: seq<byte>)
    | Take(cap: nat)
    | Step(ssl: X.Ssl)
    | Backlog(ssl: X.Ssl)
    | KeyLine(line: string)
    | CryptoInfo(dir: X.Direction)
    | NextKey(dir: X.Direction)
    | Release

  /** An exchange together with everything OpenSSL ever wrote and read beside it. */
  datatype Traffic = Traffic(x: X.Ex, wrote: seq<byte>, ate: seq<byte>) {
    function Handled(after: X.Ex, ssl: X.Ssl): Traffic {
      Traffic(after, wrote + ssl.wrote, ate + x.input[..Min(ssl.eaten, |x.input|)])
    }
  }

  function Perform(kdf: Kdf, t: Traffic, c: Call): (r: Traffic)
    requires t.x.Valid()
    ensures r.x.Valid()
  {
    match c
    case Feed(bytes) => t.(x := X.Feed(t.x, bytes).0)
    case Take(cap) => t.(x := X.Take(t.x, cap).0)
    case Step(ssl) =>
      var after := X.Step(kdf, t.x, ssl).0;
      if t.x.live && !t.x.done then t.Handled(after, ssl) else t.(x := after)
    case Backlog(ssl) =>
      var after := X.Backlog(t.x, ssl);
      if t.x.live && t.x.done then t.Handled(after, ssl) else t.(x := after)
    case KeyLine(line) => t.(x := X.KeyLine(t.x, line))
    case CryptoInfo(dir) => t.(x := X.CryptoInfo(t.x, dir).0)
    case NextKey(dir) => t.(x := X.NextKey(kdf, t.x, dir).0)
    case Release => t.(x := X.Release(t.x))
  }

  function Run(kdf: Kdf, t: Traffic, calls: seq<Call>): (r: Traffic)
    requires t.x.Valid()
    ensures r.x.Valid()
  {
    if calls == [] then t else Perform(kdf, Run(kdf, t, calls[..|calls| - 1]), calls[|calls| - 1])
  }

  // ---- conservation ----

  ghost predicate Conserved(t: Traffic) {
    t.wrote == t.x.taken + t.x.output && t.x.fed == t.ate + t.x.input
  }

  /** The lengths of a feed that BIO_write takes whole or refuses: all below 2^31, and beyond that those
      that come out negative as a C int. */
  predicate Fits(n: nat) {
    n < TWO_31 || TWO_31 <= n % TWO_32
  }

  /** A feed keeps the account straight exactly when its length fits. Any other is cut off by the cast to
      int on its way into the buffer but counted in full. */
  lemma FeedConservesIff(kdf: Kdf, t: Traffic, bytes: seq<byte>)
    requires t.x.Valid() && t.x.live && Conserved(t)
    ensures Conserved(Perform(kdf, t, Feed(bytes))) <==> Fits(|bytes|)
  {
    var y := X.Feed(t.x, bytes).0;
    var n := ToInt32(|bytes|);
    if |bytes| < TWO_31 {
      assert bytes[..n] == bytes;
      assert t.ate + t.x.input + bytes == t.ate + (t.x.input + bytes);
    } else if n >= 0 {
      assert |y.fed| != |t.ate + y.input|;
    }
  }

  /** A concrete length that does not fit: 2^32 octets, of which the buffer gets none. */
  lemma AFeedThatDoesNotFit()
    ensures !Fits(TWO_32) && X.Written(TWO_32) == Some(0)
  {
  }

  lemma StepConserves(kdf: Kdf, t: Traffic, c: Call)
    requires t.x.Valid() && Conserved(t) && c != Release
    requires c.Feed? ==> Fits(|c.bytes|)
    ensures Conserved(Perform(kdf, t, c))
  {
    if c.Feed? {
      if t.x.live {
        FeedConservesIff(kdf, t, c.bytes);
      }
    } else if c.Take? {
      TakeConserves(kdf, t, c);
    } else if c.Step? {
      if t.x.live && !t.x.done {
        HandshakeConserves(kdf, t, c);
      }
    } else if c.Backlog? {
      BacklogConserves(kdf, t, c);
    } else {
      KeysConserve(kdf, t, c);
    }
  }

  lemma TakeConserves(kdf: Kdf, t: Traffic, c: Call)
    requires c.Take? && t.x.Valid() && Conserved(t)
    ensures Conserved(Perform(kdf, t, c))
  {
    var n := X.Takes(t.x, c.cap);
    assert t.x.output == t.x.output[..n] + t.x.output[n..];
    assert t.x.taken + t.x.output[..n] + t.x.output[n..] == t.x.taken + t.x.output;
  }

  lemma HandshakeConserves(kdf: Kdf, t: Traffic, c: Call)
    requires c.Step? && t.x.Valid() && Conserved(t) && t.x.live && !t.x.done
    ensures Conserved(Perform(kdf, t, c))
  {
    MoveConserves(t, c.ssl);
    HandshakeMovesOnly(kdf, t.x, c.ssl);
  }

  lemma BacklogConserves(kdf: Kdf, t: Traffic, c: Call)
    requires c.Backlog? && t.x.Valid() && Conserved(t)
    ensures Conserved(Perform(kdf, t, c))
  {
    MoveConserves(t, c.ssl);
  }

  lemma KeysConserve(kdf: Kdf, t: Traffic, c: Call)
    requires (c.KeyLine? || c.CryptoInfo? || c.NextKey?) && t.x.Valid() && Conserved(t)
    ensures Conserved(Perform(kdf, t, c))
  {
    assert Perform(kdf, t, c).x == t.x.(keys := Perform(kdf, t, c).x.keys);
  }

  lemma MoveConserves(t: Traffic, ssl: X.Ssl)
    requires Conserved(t)
    ensures Conserved(t.Handled(X.Moved(t.x, ssl), ssl))
  {
    var n := Min(ssl.eaten, |t.x.input|);
    assert t.x.input == t.x.input[..n] + t.x.input[n..];
    assert t.ate + t.x.input[..n] + t.x.input[n..] == t.ate + t.x.input;
    assert t.x.taken + t.x.output + ssl.wrote == t.x.taken + (t.x.output + ssl.wrote);
  }

  /** The boundaries lie inside what was written and read. */
  ghost predicate Bounded(t: Traffic) {
    t.x.done ==> t.x.txAtDone <= |t.wrote| && t.x.rxAtDone <= |t.ate|
  }

  lemma StepBounded(kdf: Kdf, t: Traffic, c: Call)
    requires t.x.Valid() && Conserved(t) && Bounded(t) && c != Release && |t.x.fed| < TWO_64
    ensures Bounded(Perform(kdf, t, c))
  {
    if c.Step? && !t.x.done && t.x.live {
      MoveConserves(t, c.ssl);
      HandshakeMovesOnly(kdf, t.x, c.ssl);
      var y := X.Moved(t.x, c.ssl);
      assert y.Consumed() == |y.fed| - |y.input|;
    }
  }

  lemma FedGrows(kdf: Kdf, t: Traffic, c: Call)
    requires t.x.Valid()
    ensures |t.x.fed| <= |Perform(kdf, t, c).x.fed|
  {
    match c {
      case Step(ssl) =>
        if t.x.live && !t.x.done {
          HandshakeMovesOnly(kdf, t.x, ssl);
        }
      case _ =>
    }
  }

  /** A handshake call touches the two buffers as OpenSSL does and leaves both streams alone. */
  lemma HandshakeMovesOnly(kdf: Kdf, x: X.Ex, ssl: X.Ssl)
    requires x.Valid() && x.live
    ensures var y := X.Handshake(kdf, x, ssl).0;
            && y.fed == x.fed && y.taken == x.taken && y.live
            && y.input == X.Moved(x, ssl).input && y.output == X.Moved(x, ssl).output
            && (y.done ==> x.done || (y.txAtDone == |x.taken| + (if x.isServer then 0 else |y.output|)
                                      && y.rxAtDone == y.Consumed()))
  {
  }

  /** Over every run up to the release, octet by octet: what OpenSSL wrote is what was taken and what is
      pending, what was fed is what OpenSSL read and what is pending, and the boundaries lie inside. */
  lemma {:induction false} RunConserves(kdf: Kdf, isServer: bool, absent: X.NullPending, calls: seq<Call>)
    requires forall i :: 0 <= i < |calls| ==> calls[i] != Release && (calls[i].Feed? ==> Fits(|calls[i].bytes|))
    requires |Run(kdf, Traffic(X.Opened(isServer, absent), [], []), calls).x.fed| < TWO_64
    ensures var t := Run(kdf, Traffic(X.Opened(isServer, absent), [], []), calls);
            Conserved(t) && Bounded(t)
  {
    if calls != [] {
      var t := Run(kdf, Traffic(X.Opened(isServer, absent), [], []), calls[..|calls| - 1]);
      var c := calls[|calls| - 1];
      FedGrows(kdf, t, c);
      assert forall i :: 0 <= i < |calls| - 1 ==> calls[..|calls| - 1][i] == calls[i];
      RunConserves(kdf, isServer, absent, calls[..|calls| - 1]);
      StepConserves(kdf, t, c);
      StepBounded(kdf, t, c);
    }
  }

  /** What was settled when the handshake ended stays settled, whatever is called afterwards. */
  lemma {:induction false} SettledOnce(kdf: Kdf, t: Traffic, calls: seq<Call>)
    requires t.x.Valid() && t.x.done
    ensures SameSettlement(t.x, Run(kdf, t, calls).x)
  {
    if calls != [] {
      SettledOnce(kdf, t, calls[..|calls| - 1]);
      StepKeepsSettlement(kdf, Run(kdf, t, calls[..|calls| - 1]), calls[|calls| - 1]);
    }
  }

  ghost predicate SameSettlement(x: X.Ex, y: X.Ex) {
    && x.done && y.done && y.txAtDone == x.txAtDone && y.rxAtDone == x.rxAtDone
    && y.server == x.server && y.cipher == x.cipher && y.alpn == x.alpn
  }

  lemma StepKeepsSettlement(kdf: Kdf, t: Traffic, c: Call)
    requires t.x.Valid() && t.x.done
    ensures SameSettlement(t.x, Perform(kdf, t, c).x)
  {
    match c {
      case Feed(bytes) =>
      case Take(cap) =>
      case Step(ssl) =>
      case Backlog(ssl) =>
      case KeyLine(line) =>
      case CryptoInfo(dir) =>
      case NextKey(dir) =>
      case Release =>
    }
  }

  // ---- what each call answers ----

  /** Suite and secrets are in place. */
  predicate CanDerive(x: X.Ex, ssl: X.Ssl) {
    ssl.cipher != NoCipher && x.keys.client.secret.length > 0 && x.keys.server.secret.length > 0
  }

  /** The four answers of a step. A handshake that completes without a suite or a secret fails, and is not over. */
  lemma StepAnswersIff(kdf: Kdf, x: X.Ex, ssl: X.Ssl)
    requires x.Valid()
    ensures var (y, a) := X.Step(kdf, x, ssl);
            && (a == None <==> !x.live || (!x.done && Fails(x, ssl)))
            && (a == Some(X.Done) <==> y.live && y.done && y.output == [])
            && (a == Some(X.Reading) <==> x.live && !x.done && ssl.outcome == X.WantMore && y.output == [])
            && (a == Some(X.Writing) <==> x.live && (x.done || !Fails(x, ssl)) && y.output != [])
            && (y.done <==> x.done || (x.live && ssl.outcome == X.Complete && CanDerive(x, ssl)))
  {
    if x.live && !x.done && ssl.outcome == X.Complete {
      DerivesIff(kdf, X.Moved(x, ssl), ssl.cipher);
    }
  }

  predicate Fails(x: X.Ex, ssl: X.Ssl) {
    ssl.outcome == X.Broken || (ssl.outcome == X.Complete && !CanDerive(x, ssl))
  }

  lemma DerivesIff(kdf: Kdf, x: X.Ex, cipher: Cipher)
    requires x.Valid()
    ensures X.DeriveBoth(kdf, x, cipher).1 <==>
            cipher != NoCipher && x.keys.client.secret.length > 0 && x.keys.server.secret.length > 0
  {
  }

  /** A feed fails exactly on a released exchange or with a length that is negative as a C int, and changes
      nothing then. */
  lemma FeedFailsIff(x: X.Ex, bytes: seq<byte>)
    ensures var (y, rc) := X.Feed(x, bytes);
            && (rc == 0 || rc == -1) && (rc == -1 <==> !x.live || |bytes| % TWO_32 >= TWO_31)
            && (rc == -1 ==> y == x)
  {
  }

  /** A printed line reaches its slot whenever it comes, and changes nothing else. */
  lemma LineReachesItsSlot(x: X.Ex, slot: Slot, random: seq<byte>, secret: seq<byte>)
    requires x.Valid() && |secret| <= 64
    ensures var y := X.KeyLine(x, Print(Label(slot), random, secret));
            && y == x.(keys := y.keys) && y.keys.Of(slot).secret.Value() == secret
            && y.keys.Of(slot) == x.keys.Of(slot).(secret := y.keys.Of(slot).secret)
            && (forall other: Slot :: other != slot ==> y.keys.Of(other) == x.keys.Of(other))
  {
    LineStored(x.keys, slot, random, secret);
  }

  /** A take hands out as much as is there and its capacity, cut to a C int, allows, from the front. */
  lemma TakeIsGreedy(x: X.Ex, cap: nat)
    ensures var (y, bytes) := X.Take(x, cap);
            && |bytes| == (if x.live && cap % TWO_32 < TWO_31 then Min(cap % TWO_32, |x.output|) else 0)
            && bytes + y.output == x.output && y.taken == x.taken + bytes
  {
    var n := X.Takes(x, cap);
    assert x.output[..n] + x.output[n..] == x.output;
  }

  /** There is a blob exactly when the handshake is over, nothing is owed, and neither scanner overflowed. */
  lemma BlobGivenIff(x: X.Ex, dir: X.Direction)
    requires x.Valid()
    ensures X.CryptoInfo(x, dir).1.Some? <==>
            x.done && (x.live ==> x.output == []) && |Ends(x.taken)| <= 64 && |Ends(x.fed)| <= 64
  {
  }

  /** An update expands the secret of its direction under the label of section 7.2 of RFC 8446, restarts the
      sequence and leaves the other direction alone. It answers 0 when there was a secret. */
  lemma UpdateExpands(kdf: Kdf, x: X.Ex, dir: X.Direction)
    requires x.Valid()
    ensures var (y, rc) := X.NextKey(kdf, x, dir);
            var before, after := x.Key(dir).secret.Value(), y.Key(dir).secret.Value();
            && (rc == 0 || rc == -1) && (rc == 0 <==> x.done && before != [])
            && (x.done ==> after == kdf(before, "traffic upd", |before|) && X.RecordSequence(y, dir) == 0)
            && (!x.done ==> y == x)
            && (forall other: X.Direction :: other != dir ==> y.Key(other) == x.Key(other))
  {
  }

  /** The ALPN answer is the negotiated name exactly when that has at most 32 octets; a longer one, which
      the configuration accepts, reads as none. */
  lemma AlpnReportedIff(kdf: Kdf, x: X.Ex, ssl: X.Ssl)
    requires x.Valid() && x.live && !x.done && x.alpn == [] && X.Step(kdf, x, ssl).0.done
    ensures X.Step(kdf, x, ssl).0.alpn == ssl.alpn <==> |ssl.alpn| <= 32
  {
  }

  // ---- the blob and the number ----

  lemma SequenceIsSmall(x: X.Ex, dir: X.Direction)
    ensures X.RecordSequence(x, dir) <= CAPACITY
  {
  }

  function Scanned(x: X.Ex, dir: X.Direction): seq<byte> {
    if dir == X.Tx then x.taken else x.fed
  }

  function UpTo(x: X.Ex, dir: X.Direction): nat {
    if dir == X.Tx then |x.taken| else x.Consumed()
  }

  /** All the records past the boundary that were taken, or read. */
  function TrueSequence(x: X.Ex, dir: X.Direction): nat {
    CountIn(Ends(Scanned(x, dir)), if dir == X.Tx then x.txAtDone else x.rxAtDone, UpTo(x, dir))
  }

  /** record_sequence looks at no overflow. It still tells the truth exactly when at most 64 records passed, the
      handshake's included, or none of those that passed lies past the boundary; otherwise it says too little. */
  lemma SequenceExactIff(x: X.Ex, dir: X.Direction)
    requires x.done && !x.Key(dir).rekeyed
    ensures X.RecordSequence(x, dir) == TrueSequence(x, dir)
       <==> CountIn(Ends(Scanned(x, dir)), 0, UpTo(x, dir)) <= CAPACITY || TrueSequence(x, dir) == 0
    ensures X.RecordSequence(x, dir) <= TrueSequence(x, dir)
  {
    var after := if dir == X.Tx then x.txAtDone else x.rxAtDone;
    CappedCountExactIff(Scanned(x, dir), after, UpTo(x, dir));
    CappedCountExact(Scanned(x, dir), after, UpTo(x, dir));
  }

  /** Whenever there is a blob, the kernel reads record_sequence's own answer out of it. */
  lemma BlobSaysTheSequence(x: X.Ex, dir: X.Direction)
    requires x.Valid() && X.CryptoInfo(x, dir).1.Some?
    ensures var b := X.CryptoInfo(x, dir).1.value;
            |b| == BlobLength(x.cipher) && KernelSequence(b) == X.RecordSequence(x, dir)
  {
    var n := X.RecordSequence(x, dir);
    var info := WithSequence(x.cipher, x.Key(dir).info, n);
    var b := Blob(x.cipher, info);
    assert b[|b| - SEQUENCE..] == BigEndian(n, SEQUENCE);
    BigEndian64(n);
  }

  /** Asking changes nothing but the sequence field of the slot asked for, and no sequence. */
  lemma AskingLeavesTheRest(x: X.Ex, dir: X.Direction)
    requires x.Valid()
    ensures var y := X.CryptoInfo(x, dir).0;
            && y == x.(keys := y.keys) && y.Key(dir) == x.Key(dir).(info := y.Key(dir).info)
            && (forall n :: WithSequence(x.cipher, y.Key(dir).info, n) == WithSequence(x.cipher, x.Key(dir).info, n))
            && (forall d: X.Direction :: d != dir ==> y.Key(d) == x.Key(d))
            && (forall d: X.Direction :: X.RecordSequence(y, d) == X.RecordSequence(x, d))
  {
    if X.Answers(x) {
      var info, m := x.Key(dir).info, X.RecordSequence(x, dir);
      assert X.CryptoInfo(x, dir).0.Key(dir).info == WithSequence(x.cipher, info, m);
      forall n ensures WithSequence(x.cipher, WithSequence(x.cipher, info, m), n) == WithSequence(x.cipher, info, n) {
        SequenceRewritten(x.cipher, info, m, n);
      }
    }
  }

  /** Asking again gives the same octets and the same state. */
  lemma AskingTwice(x: X.Ex, dir: X.Direction)
    requires x.Valid()
    ensures var (y, b) := X.CryptoInfo(x, dir); X.CryptoInfo(y, dir) == (y, b)
  {
    AskingLeavesTheRest(x, dir);
  }

  // ---- letting the SSL go ----

  ghost predicate SameAnswer(x: X.Ex, y: X.Ex, dir: X.Direction)
    requires x.Valid() && y.Valid()
  {
    X.RecordSequence(x, dir) == X.RecordSequence(y, dir) && X.CryptoInfo(x, dir).1 == X.CryptoInfo(y, dir).1
  }

  ghost predicate SameAnswers(x: X.Ex, y: X.Ex)
    requires x.Valid() && y.Valid()
  {
    SameAnswer(x, y, X.Tx) && SameAnswer(x, y, X.Rx)
  }

  /** What conservation gives for an exchange that still has its SSL. */
  ghost predicate Sound(x: X.Ex) {
    && x.Valid() && x.live
    && |x.input| <= |x.fed| < TWO_64 - 1
    && (x.done ==> x.rxAtDone <= x.Consumed())
  }

  /** Nothing left to send, unless no blob is given anyway. */
  predicate NothingOwed(x: X.Ex) {
    x.done ==> x.output == [] || x.Overflowed()
  }

  /** No recorded end among the octets OpenSSL has not read, unless the reading key was turned already. */
  predicate NothingUnread(x: X.Ex) {
    x.done && !x.Key(X.Rx).rekeyed ==>
      forall i :: 0 <= i < |Capped(Ends(x.fed))| ==> !(x.Consumed() < Capped(Ends(x.fed))[i] <= |x.fed|)
  }

  predicate NothingWaits(x: X.Ex) {
    NothingOwed(x) && NothingUnread(x)
  }

  /** Releasing changes no answer exactly when nothing waits; two empty buffers are enough. */
  lemma ReleaseChangesNothingIff(x: X.Ex)
    requires Sound(x)
    ensures SameAnswers(x, X.Release(x)) <==> NothingWaits(x)
    ensures x.input == [] && x.output == [] ==> NothingWaits(x)
  {
    SendingAfterRelease(x);
    ReceivingAfterRelease(x);
  }

  lemma SendingAfterRelease(x: X.Ex)
    requires Sound(x)
    ensures SameAnswer(x, X.Release(x), X.Tx) <==> NothingOwed(x)
  {
    assert X.Release(x).Key(X.Tx) == x.Key(X.Tx);
  }

  lemma ReceivingAfterRelease(x: X.Ex)
    requires Sound(x)
    ensures SameAnswer(x, X.Release(x), X.Rx) <==> NothingOwed(x) && NothingUnread(x)
  {
    assert X.Release(x).Key(X.Rx) == x.Key(X.Rx);
    if x.done {
      UnreadRecordsCount(x);
    }
  }

  lemma UnreadRecordsCount(x: X.Ex)
    requires Sound(x) && x.done
    ensures X.RecordSequence(x, X.Rx) == X.RecordSequence(X.Release(x), X.Rx) <==> NothingUnread(x)
  {
    var y, ends := X.Release(x), Capped(Ends(x.fed));
    assert x.Consumed() == |x.fed| - |x.input| && y.Consumed() == |x.fed| - x.absent;
    EndsRise(x.fed, 0);
    assert forall i :: 0 <= i < |ends| ==> ends[i] in Ends(x.fed);
    CountSaturates(ends, x.rxAtDone, |x.fed|, y.Consumed());
    CountAdds(ends, x.rxAtDone, x.Consumed(), |x.fed|);
    if i :| 0 <= i < |ends| && x.Consumed() < ends[i] <= |x.fed| {
      CountSome(ends, x.Consumed(), |x.fed|, ends[i]);
    } else {
      CountNone(ends, x.Consumed(), |x.fed|);
    }
  }

  /** An exchange that every feed of a run fitted and that was not released is sound. */
  lemma RunIsSound(kdf: Kdf, isServer: bool, absent: X.NullPending, calls: seq<Call>)
    requires forall i :: 0 <= i < |calls| ==> calls[i] != Release && (calls[i].Feed? ==> Fits(|calls[i].bytes|))
    requires |Run(kdf, Traffic(X.Opened(isServer, absent), [], []), calls).x.fed| < TWO_64 - 1
    ensures Sound(Run(kdf, Traffic(X.Opened(isServer, absent), [], []), calls).x)
  {
    RunConserves(kdf, isServer, absent, calls);
    StaysLive(kdf, Traffic(X.Opened(isServer, absent), [], []), calls);
    ConservedIsSound(Run(kdf, Traffic(X.Opened(isServer, absent), [], []), calls));
  }

  lemma ConservedIsSound(t: Traffic)
    requires t.x.Valid() && t.x.live && Conserved(t) && Bounded(t) && |t.x.fed| < TWO_64 - 1
    ensures Sound(t.x)
  {
    assert t.x.Consumed() == |t.ate|;
  }

  lemma {:induction false} StaysLive(kdf: Kdf, t: Traffic, calls: seq<Call>)
    requires t.x.Valid() && t.x.live && forall i :: 0 <= i < |calls| ==> calls[i] != Release
    ensures Run(kdf, t, calls).x.live
  {
    if calls != [] {
      StaysLive(kdf, t, calls[..|calls| - 1]);
      OneCallKeepsLive(kdf, Run(kdf, t, calls[..|calls| - 1]), calls[|calls| - 1]);
    }
  }

  lemma OneCallKeepsLive(kdf: Kdf, t: Traffic, c: Call)
    requires t.x.Valid() && t.x.live && c != Release
    ensures Perform(kdf, t, c).x.live
  {
    if c.Step? && !t.x.done {
      HandshakeMovesOnly(kdf, t.x, c.ssl);
    }
  }

  predicate Rekeying(c: Call) {
    c.NextKey? || c.CryptoInfo?
  }

  /** From then on the two evolve alike: after any updates and any blobs asked for, the released exchange
      is the other one released, and still answers like it. */
  lemma {:induction false} ReleasedEvolvesAlike(kdf: Kdf, t: Traffic, calls: seq<Call>)
    requires Sound(t.x) && NothingWaits(t.x)
    requires forall i :: 0 <= i < |calls| ==> Rekeying(calls[i])
    ensures var kept := Run(kdf, t, calls).x;
            var released := Run(kdf, Perform(kdf, t, Release), calls).x;
            && Sound(kept) && NothingWaits(kept)
            && released == X.Release(kept) && SameAnswers(kept, released)
  {
    if calls == [] {
      ReleaseChangesNothingIff(t.x);
    } else {
      var before := calls[..|calls| - 1];
      ReleasedEvolvesAlike(kdf, t, before);
      RekeyingCommutesWithRelease(kdf, Run(kdf, t, before), Run(kdf, Perform(kdf, t, Release), before), calls[|calls| - 1]);
      ReleaseChangesNothingIff(Run(kdf, t, calls).x);
    }
  }

  lemma RekeyingCommutesWithRelease(kdf: Kdf, t: Traffic, u: Traffic, c: Call)
    requires Sound(t.x) && NothingWaits(t.x) && Rekeying(c) && u.x == X.Release(t.x)
    ensures var after := Perform(kdf, t, c).x;
            Sound(after) && NothingWaits(after) && Perform(kdf, u, c).x == X.Release(after)
  {
    match c {
      case NextKey(dir) => TurnCommutes(kdf, t.x, dir);
      case CryptoInfo(dir) => AskCommutes(t.x, dir);
    }
  }

  /** The same exchange but for its keys, no slot less turned than before. */
  ghost predicate OnlyKeys(x: X.Ex, y: X.Ex) {
    && x.Valid() && y.Valid() && y == x.(keys := y.keys)
    && (x.Key(X.Rx).rekeyed ==> y.Key(X.Rx).rekeyed)
  }

  lemma OnlyKeysKeeps(x: X.Ex, y: X.Ex)
    requires Sound(x) && NothingWaits(x) && OnlyKeys(x, y)
    ensures Sound(y) && NothingWaits(y)
  {
  }

  lemma TurnCommutes(kdf: Kdf, x: X.Ex, dir: X.Direction)
    requires Sound(x) && NothingWaits(x)
    ensures var after := X.NextKey(kdf, x, dir).0;
            Sound(after) && NothingWaits(after) && X.NextKey(kdf, X.Release(x), dir).0 == X.Release(after)
  {
    assert X.Release(x).Key(dir) == x.Key(dir);
    OnlyKeysKeeps(x, X.NextKey(kdf, x, dir).0);
  }

  lemma AskCommutes(x: X.Ex, dir: X.Direction)
    requires Sound(x) && NothingWaits(x)
    ensures var after := X.CryptoInfo(x, dir).0;
            Sound(after) && NothingWaits(after) && X.CryptoInfo(X.Release(x), dir).0 == X.Release(after)
  {
    assert X.Release(x).Key(dir) == x.Key(dir);
    ReleaseChangesNothingIff(x);
    OnlyKeysKeeps(x, X.CryptoInfo(x, dir).0);
  }

  /** No answer changes by the release exactly when nothing waits, and then none differs later either. */
  ghost predicate ReleasesCleanlyIff(kdf: Kdf, t: Traffic, later: seq<Call>)
    requires t.x.Valid()
  {
    && (SameAnswers(t.x, X.Release(t.x)) <==> NothingWaits(t.x))
    && (NothingWaits(t.x) ==> SameAnswers(Run(kdf, t, later).x, Run(kdf, Perform(kdf, t, Release), later).x))
  }

  lemma SoundReleases(kdf: Kdf, t: Traffic, later: seq<Call>)
    requires Sound(t.x) && forall i :: 0 <= i < |later| ==> Rekeying(later[i])
    ensures ReleasesCleanlyIff(kdf, t, later)
  {
    ReleaseChangesNothingIff(t.x);
    if NothingWaits(t.x) {
      ReleasedEvolvesAlike(kdf, t, later);
    }
  }

  /** Releasing after any run, followed by any updates and blobs. */
  lemma ReleaseAfterARun(kdf: Kdf, isServer: bool, absent: X.NullPending, calls: seq<Call>, later: seq<Call>)
    requires forall i :: 0 <= i < |calls| ==> calls[i] != Release && (calls[i].Feed? ==> Fits(|calls[i].bytes|))
    requires |Run(kdf, Traffic(X.Opened(isServer, absent), [], []), calls).x.fed| < TWO_64 - 1
    requires forall i :: 0 <= i < |later| ==> Rekeying(later[i])
    ensures ReleasesCleanlyIff(kdf, Run(kdf, Traffic(X.Opened(isServer, absent), [], []), calls), later)
  {
    RunIsSound(kdf, isServer, absent, calls);
    SoundReleases(kdf, Run(kdf, Traffic(X.Opened(isServer, absent), [], []), calls), later);
  }
}
