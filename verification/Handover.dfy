/** The main results on the two sides of a connection: what holds in every world that any legal run of any
    length leads to, with every interleaving and every way of cutting the streams. */
module Handover {
  import opened Bytes
  import opened Records
  import opened KeyLog
  import opened KeyChain
  import opened Duplex
  import opened DuplexBytes
  import opened DuplexKeys
  import opened DuplexNonces
  import ExchangeLaws
  import X = Exchange

  ghost predicate Holding(kdf: Kdf, session: Session, w: World) {
    && BytesHold(w)
    && KeysHold(kdf, session, w.server) && KeysHold(kdf, session, w.client)
    && NoncesHold(w.server, w.client) && NoncesHold(w.client, w.server)
  }

  lemma StartHolds(kdf: Kdf, session: Session, s: X.NullPending, c: X.NullPending)
    ensures Holding(kdf, session, Start(s, c))
  {
  }

  /** One action of either side keeps everything, for itself and for the other side. */
  lemma PartyKeeps(kdf: Kdf, session: Session, p: Party, peer: Party, out: seq<byte>, inbound: seq<byte>, a: Action)
    requires session.Valid() && Paired(p, peer, out, inbound) && Legal(session, p, peer, inbound, a)
    requires KeysHold(kdf, session, p) && NoncesHold(p, peer) && NoncesHold(peer, p)
    ensures var q := Acted(kdf, p, peer, inbound, a);
            && Paired(q, peer, Outbound(p, out, a), Inbound(inbound, a)) && q.ex.isServer == p.ex.isServer
            && KeysHold(kdf, session, q) && NoncesHold(q, peer) && NoncesHold(peer, q)
  {
    var q := Acted(kdf, p, peer, inbound, a);
    if a.Step? {
      DuplexKeys.StepKeeps(kdf, session, p, peer, inbound, a);
    }
    DuplexBytes.ActionKeeps(kdf, session, p, peer, out, inbound, a);
    DuplexKeys.ActionKeeps(kdf, session, p, peer, inbound, a);
    ActorKeeps(kdf, session, p, peer, out, inbound, a);
    FinishedOnce(kdf, session, p, peer, out, inbound, a);
    PeerKeeps(p, q, peer, out, Outbound(p, out, a), inbound, Inbound(inbound, a));
  }

  lemma FinishedOnce(kdf: Kdf, session: Session, p: Party, peer: Party, out: seq<byte>, inbound: seq<byte>, a: Action)
    requires Paired(p, peer, out, inbound) && Legal(session, p, peer, inbound, a)
    ensures var q := Acted(kdf, p, peer, inbound, a);
            && q.ex.isServer == p.ex.isServer
            && (q.finished == p.finished || (p.finished.None? && !peer.ex.done))
  {
    if a.Step? && p.ex.live && !p.ex.done {
      HandshakeEffect(kdf, p.ex, a.ssl);
    }
  }

  lemma MoveHolds(kdf: Kdf, session: Session, w: World, m: Move, w': World)
    requires session.Valid() && Holding(kdf, session, w) && LegalMove(kdf, session, w, m, w')
    ensures Holding(kdf, session, w')
  {
    if m.byServer {
      PartyKeeps(kdf, session, w.server, w.client, w.down, w.up, m.action);
    } else {
      PartyKeeps(kdf, session, w.client, w.server, w.up, w.down, m.action);
    }
  }

  ghost predicate HoldingAt(kdf: Kdf, session: Session, run: Run, k: int) {
    0 <= k < |run.worlds| && Holding(kdf, session, run.worlds[k])
  }

  lemma FirstWorldHolds(kdf: Kdf, session: Session, run: Run)
    requires LegalRun(kdf, session, run)
    ensures HoldingAt(kdf, session, run, 0)
  {
    var s: X.NullPending, c: X.NullPending :| run.worlds[0] == Start(s, c);
    StartHolds(kdf, session, s, c);
  }

  lemma NextWorldHolds(kdf: Kdf, session: Session, run: Run, k: nat)
    requires session.Valid() && LegalRun(kdf, session, run) && 0 < k <= |run.moves|
    requires HoldingAt(kdf, session, run, k - 1)
    ensures HoldingAt(kdf, session, run, k)
  {
    MoveHolds(kdf, session, run.worlds[k - 1], run.moves[k - 1], run.worlds[k]);
  }

  lemma {:induction false} FromPlaceToPlace(holds: nat -> bool, k: nat)
    requires holds(0) && forall i: nat :: i < k && holds(i) ==> holds(i + 1)
    ensures holds(k)
  {
    if k > 0 {
      FromPlaceToPlace(holds, k - 1);
    }
  }

  /** Every world of a legal run, by induction on its place. */
  lemma RunHolds(kdf: Kdf, session: Session, run: Run, k: nat)
    requires session.Valid() && LegalRun(kdf, session, run) && k <= |run.moves|
    ensures HoldingAt(kdf, session, run, k)
  {
    var holds: nat -> bool := i => HoldingAt(kdf, session, run, i);
    FirstWorldHolds(kdf, session, run);
    forall i: nat | i < k && holds(i) ensures holds(i + 1) {
      NextWorldHolds(kdf, session, run, i + 1);
    }
    FromPlaceToPlace(holds, k);
  }

  lemma ReachableHolds(kdf: Kdf, session: Session, w: World)
    requires session.Valid() && Reachable(kdf, session, w)
    ensures Holding(kdf, session, w)
  {
    var run :| LegalRun(kdf, session, run) && w == run.worlds[|run.moves|];
    RunHolds(kdf, session, run, |run.moves|);
  }

  // ---- one side of a world, and the other ----

  function Side(w: World, server: bool): Party {
    if server then w.server else w.client
  }

  /** What this side sent and the other has not been fed. */
  function Wire(w: World, server: bool): seq<byte> {
    if server then w.down else w.up
  }

  lemma SidesPaired(w: World, server: bool)
    requires BytesHold(w)
    ensures Paired(Side(w, server), Side(w, !server), Wire(w, server), Wire(w, !server))
    ensures Side(w, server).ex.isServer == server
  {
  }

  // ---- main results ----

  /** The boundaries. From the step that ends a side's handshake on, its sending boundary is the offset just
      past its own Finished and its receiving boundary the offset just past the peer's, whatever was pending,
      in either role, under every interleaving. */
  lemma BoundariesAreTheFinisheds(kdf: Kdf, session: Session, w: World, server: bool)
    requires session.Valid() && Reachable(kdf, session, w) && Side(w, server).ex.done
    ensures Side(w, server).finished == Some(Side(w, server).ex.txAtDone)
    ensures Side(w, !server).finished == Some(Side(w, server).ex.rxAtDone)
  {
    ReachableHolds(kdf, session, w);
    SidesPaired(w, server);
  }

  /** Every octet is accounted for: what one side's OpenSSL wrote is, in order, what the other's has read,
      what waits in its buffer, what is on the wire and what waits to be taken. */
  lemma NoOctetIsLost(kdf: Kdf, session: Session, w: World, server: bool)
    requires session.Valid() && Reachable(kdf, session, w)
    ensures Side(w, !server).ex.fed + Wire(w, server) + Side(w, server).ex.output == Side(w, server).Stream()
    ensures Whole(Side(w, server).Stream())
  {
    ReachableHolds(kdf, session, w);
    SidesPaired(w, server);
  }

  /** The two sequences. With both handshakes over, neither slot updated and not too much taken to count, the
      receiver's number is at most the sender's, and equal once everything taken was delivered and read. A
      receiver that was released has nothing unread. */
  lemma SequencesAgree(kdf: Kdf, session: Session, w: World, server: bool)
    requires session.Valid() && Reachable(kdf, session, w)
    requires var s, r := Side(w, server).ex, Side(w, !server).ex;
             s.done && r.done && |Ends(s.taken)| <= CAPACITY && !s.Key(X.Tx).rekeyed && !r.Key(X.Rx).rekeyed
    ensures var s, r := Side(w, server).ex, Side(w, !server).ex;
            && X.RecordSequence(r, X.Rx) <= X.RecordSequence(s, X.Tx)
            && (Wire(w, server) == [] && r.input == [] ==> X.RecordSequence(r, X.Rx) == X.RecordSequence(s, X.Tx))
  {
    ReachableHolds(kdf, session, w);
    SidesPaired(w, server);
    PairSequences(Side(w, server), Side(w, !server), Wire(w, server), Wire(w, !server));
  }

  lemma PairSequences(p: Party, q: Party, out: seq<byte>, inbound: seq<byte>)
    requires Paired(p, q, out, inbound) && p.ex.done && q.ex.done && |Ends(p.ex.taken)| <= CAPACITY
    requires !p.ex.Key(X.Tx).rekeyed && !q.ex.Key(X.Rx).rekeyed
    ensures X.RecordSequence(q.ex, X.Rx) <= X.RecordSequence(p.ex, X.Tx)
    ensures out == [] && q.ex.input == [] ==> X.RecordSequence(q.ex, X.Rx) == X.RecordSequence(p.ex, X.Tx)
  {
    var sent, seen, f := p.ex.taken, q.ex.fed, p.finished.value;
    var upto := if q.ex.live then q.read else |seen|;
    assert sent == seen + out;
    EndsAppend(seen, out, 0);
    SendingSequence(p, q, out, inbound);
    ReceivingSequence(q, p, inbound, out);
    CountLooksBackOnly(sent, p.ex.output, f, |sent|);
    CountLooksBackOnly(seen, out, f, upto);
    CountAdds(Ends(sent), f, upto, |sent|);
    if out == [] {
      assert seen == sent;
    }
  }

  /** The numbers are the truth, for a side that is done, released or not, unless a scanner overflowed: as long
      as the slot was not updated, the sending sequence is the number of records its OpenSSL wrote under the
      application keys that were taken, which is all of them when nothing is pending, and the receiving one the
      number of the peer's that it read whole, or, after the release, was fed. */
  lemma SequencesAreTheCounts(kdf: Kdf, session: Session, w: World, server: bool)
    requires session.Valid() && Reachable(kdf, session, w) && Side(w, server).ex.done
    ensures var p := Side(w, server);
            !p.ex.Key(X.Tx).rekeyed && |Ends(p.ex.taken)| <= CAPACITY ==>
              && X.RecordSequence(p.ex, X.Tx) == CountIn(Ends(p.Stream()), p.ex.txAtDone, |p.ex.taken|)
              && (p.ex.output == [] ==> X.RecordSequence(p.ex, X.Tx) == AppWritten(p))
    ensures var p, peer := Side(w, server), Side(w, !server);
            !p.ex.Key(X.Rx).rekeyed && |Ends(p.ex.fed)| <= CAPACITY ==>
              X.RecordSequence(p.ex, X.Rx) == if p.ex.live then AppRead(p, peer) else AppFed(p, peer)
  {
    ReachableHolds(kdf, session, w);
    SidesPaired(w, server);
    var p, peer := Side(w, server), Side(w, !server);
    if !p.ex.Key(X.Tx).rekeyed && |Ends(p.ex.taken)| <= CAPACITY {
      SendingSequence(p, peer, Wire(w, server), Wire(w, !server));
    }
    if !p.ex.Key(X.Rx).rekeyed && |Ends(p.ex.fed)| <= CAPACITY {
      ReceivingSequence(p, peer, Wire(w, server), Wire(w, !server));
    }
  }

  /** The record a receiving kernel meets first: it starts where what was fed ends in the peer's stream, and
      it is the one numbered by the blob. */
  ghost predicate MeetsTheNextRecord(p: Party, peer: Party) {
    && Boundary(peer.Stream(), |p.ex.fed|)
    && CountIn(Ends(peer.Stream()), p.ex.rxAtDone, |p.ex.fed|) == X.RecordSequence(p.ex, X.Rx)
  }

  /** Nothing in the library looks at an unfinished record. The receiving kernel starts on the record its blob
      numbers exactly when OpenSSL has read everything that was fed and that stops between records. */
  lemma KernelMeetsTheNextRecordIff(kdf: Kdf, session: Session, w: World, server: bool)
    requires session.Valid() && Reachable(kdf, session, w)
    requires var x := Side(w, server).ex; x.done && |Ends(x.fed)| <= CAPACITY && !x.Key(X.Rx).rekeyed
    ensures MeetsTheNextRecord(Side(w, server), Side(w, !server)) <==>
            Side(w, server).ex.input == [] && Whole(Side(w, server).ex.fed)
  {
    ReachableHolds(kdf, session, w);
    SidesPaired(w, server);
    PairMeets(Side(w, server), Side(w, !server), Wire(w, server), Wire(w, !server));
  }

  lemma PairMeets(p: Party, peer: Party, out: seq<byte>, inbound: seq<byte>)
    requires Paired(p, peer, out, inbound) && p.ex.done && |Ends(p.ex.fed)| <= CAPACITY && !p.ex.Key(X.Rx).rekeyed
    ensures MeetsTheNextRecord(p, peer) <==> p.ex.input == [] && Whole(p.ex.fed)
  {
    var fed, f := p.ex.fed, p.ex.rxAtDone;
    var rest := inbound + peer.ex.output;
    assert peer.Stream() == fed + rest;
    BoundaryIffWhole(fed, rest);
    CountLooksBackOnly(fed, rest, f, |fed|);
    ReceivingSequence(p, peer, out, inbound);
    if p.ex.live && Whole(fed) {
      UnreadShows(fed, f, p.read);
    }
  }

  /** A stretch that stops between records ends with a record, so leaving part of it unread shows in the count. */
  lemma UnreadShows(fed: seq<byte>, after: nat, read: nat)
    requires Whole(fed) && after <= read <= |fed|
    ensures CountIn(Ends(fed), after, read) == CountIn(Ends(fed), after, |fed|) <==> read == |fed|
  {
    CountAdds(Ends(fed), after, read, |fed|);
    if read < |fed| {
      TailIsTheLastEnd(fed, 0);
      assert Ends(fed)[|Ends(fed)| - 1] == |fed|;
      CountSome(Ends(fed), read, |fed|, |fed|);
    }
  }

  /** Both sides can give blobs, the direction was updated equally often at both ends, and, as long as it was
      not updated at all, the receiver has read everything sent. */
  ghost predicate Drained(w: World, server: bool) {
    var s, r := Side(w, server), Side(w, !server);
    && X.Answers(s.ex) && X.Answers(r.ex) && s.txTurns == r.rxTurns
    && (s.txTurns == 0 ==> Wire(w, server) == [] && r.ex.input == [])
  }

  /** The secret a direction stands at: the one named for the sender, the server's when a server sends or a
      client receives, expanded as often as the direction was updated. */
  function EpochSecret(kdf: Kdf, session: Session, w: World, server: bool, dir: X.Direction): seq<byte> {
    var fromServer := server == (dir == X.Tx);
    Chain(kdf, if fromServer then session.serverSecret else session.clientSecret, Side(w, server).Turns(dir))
  }

  /** The secrets of one direction's epochs, from the session's on, each the expansion of the one before. */
  lemma EpochSecrets(kdf: Kdf, session: Session, w: World, server: bool, dir: X.Direction) returns (secrets: seq<seq<byte>>)
    ensures var m := Side(w, server).Turns(dir);
            && |secrets| == m + 1 && secrets[m] == EpochSecret(kdf, session, w, server, dir)
            && (forall i :: 0 <= i < m ==> secrets[i + 1] == kdf(secrets[i], "traffic upd", |secrets[i]|))
    ensures server == (dir == X.Tx) ==> secrets[0] == session.serverSecret
    ensures server != (dir == X.Tx) ==> secrets[0] == session.clientSecret
  {
    var fromServer := server == (dir == X.Tx);
    secrets := Expansions(kdf, if fromServer then session.serverSecret else session.clientSecret, Side(w, server).Turns(dir));
  }

  /** In every reachable world the kernel takes a blob for TLS 1.3 and the cipher agreed on, and reads key and iv of
      its epoch out of it, which are those of the secret the slot holds. */
  lemma BlobHoldsTheEpochsKey(kdf: Kdf, session: Session, w: World, server: bool, dir: X.Direction)
    requires session.Valid() && Reachable(kdf, session, w)
    requires Side(w, server).ex.Valid() && X.CryptoInfo(Side(w, server).ex, dir).1.Some?
    ensures var b := X.CryptoInfo(Side(w, server).ex, dir).1.value;
            KernelReads(kdf, session.cipher, EpochSecret(kdf, session, w, server, dir), b)
    ensures Side(w, server).ex.Key(dir).secret.Value() == EpochSecret(kdf, session, w, server, dir)
  {
    ReachableHolds(kdf, session, w);
    SidesPaired(w, server);
    PartyBlobKey(kdf, session, Side(w, server), dir);
  }

  lemma PartyBlobKey(kdf: Kdf, session: Session, p: Party, dir: X.Direction)
    requires session.Valid() && KeysHold(kdf, session, p) && X.CryptoInfo(p.ex, dir).1.Some?
    ensures var b := X.CryptoInfo(p.ex, dir).1.value;
            var secret := Chain(kdf, session.Secret(X.SlotFor(p.ex.isServer, dir)), p.Turns(dir));
            && KernelReads(kdf, session.cipher, secret, b) && KernelSequence(b) == X.RecordSequence(p.ex, dir)
            && p.ex.Key(dir).secret.Value() == secret
  {
    var own, n := session.Secret(X.SlotFor(p.ex.isServer, dir)), X.RecordSequence(p.ex, dir);
    BlobDetermined(kdf, session.cipher, p.ex.Key(dir), own, p.Turns(dir), n);
    ExchangeLaws.SequenceIsSmall(p.ex, dir);
    KernelReadsBack(kdf, session.cipher, Chain(kdf, own, p.Turns(dir)), n);
  }

  /** After one more update, in any reachable world, the next blob has the key and the iv of the secret that the
      one the slot held expands to, and sequence 0. */
  lemma UpdateChangesTheKey(kdf: Kdf, session: Session, w: World, server: bool, dir: X.Direction)
    requires session.Valid() && Reachable(kdf, session, w) && Allowed(session, w, Move(server, NextKey(dir)))
    requires w.server.ex.Valid() && w.client.ex.Valid()
    requires X.CryptoInfo(X.NextKey(kdf, Side(w, server).ex, dir).0, dir).1.Some?
    ensures var s := Side(w, server).ex.Key(dir).secret.Value();
            var b := X.CryptoInfo(X.NextKey(kdf, Side(w, server).ex, dir).0, dir).1.value;
            KernelReads(kdf, session.cipher, kdf(s, "traffic upd", |s|), b) && KernelSequence(b) == 0
  {
    ReachableHolds(kdf, session, w);
    SidesPaired(w, server);
    PartyUpdate(kdf, session, Side(w, server), Side(w, !server), Wire(w, !server), dir);
  }

  lemma PartyUpdate(kdf: Kdf, session: Session, p: Party, peer: Party, inbound: seq<byte>, dir: X.Direction)
    requires session.Valid() && KeysHold(kdf, session, p) && p.ex.done
    requires X.CryptoInfo(X.NextKey(kdf, p.ex, dir).0, dir).1.Some?
    ensures var s := p.ex.Key(dir).secret.Value();
            var b := X.CryptoInfo(X.NextKey(kdf, p.ex, dir).0, dir).1.value;
            KernelReads(kdf, session.cipher, kdf(s, "traffic upd", |s|), b) && KernelSequence(b) == 0
  {
    var q := Acted(kdf, p, peer, inbound, NextKey(dir));
    DuplexKeys.TurnKeeps(kdf, session, p, peer, inbound, NextKey(dir));
    ExchangeLaws.UpdateExpands(kdf, p.ex, dir);
    PartyBlobKey(kdf, session, q, dir);
  }

  /** What one side sends with the other receives with, octet for octet: the same blob, for both suites, in
      both directions, after any number of updates. It is laid out from the sender's own secret of the session,
      the one its key-log label names, turned that many times. */
  lemma BlobsAgree(kdf: Kdf, session: Session, w: World, server: bool)
    requires session.Valid() && Reachable(kdf, session, w) && Drained(w, server)
    requires w.server.ex.Valid() && w.client.ex.Valid()
    ensures var s, r := Side(w, server), Side(w, !server);
            var sending, receiving := X.CryptoInfo(s.ex, X.Tx).1, X.CryptoInfo(r.ex, X.Rx).1;
            var secret := EpochSecret(kdf, session, w, server, X.Tx);
            && sending.Some? && sending == receiving
            && sending.value == Blob(session.cipher, WithSequence(session.cipher, Derived(kdf, session.cipher, secret),
                                                                  X.RecordSequence(s.ex, X.Tx)))
  {
    ReachableHolds(kdf, session, w);
    SidesPaired(w, server);
    var s, r := Side(w, server), Side(w, !server);
    var secret, n := session.Secret(X.SlotFor(server, X.Tx)), X.RecordSequence(s.ex, X.Tx);
    assert EpochSecret(kdf, session, w, server, X.Tx) == Chain(kdf, secret, s.txTurns);
    if s.txTurns == 0 {
      PairSequences(s, r, Wire(w, server), Wire(w, !server));
    }
    BlobDetermined(kdf, session.cipher, s.ex.Key(X.Tx), secret, s.txTurns, n);
    BlobDetermined(kdf, session.cipher, r.ex.Key(X.Rx), secret, r.rxTurns, n);
  }

  /** What a step answers, in every reachable world: Done exactly when the handshake is over and nothing is owed,
      Writing when octets are owed, Reading when more has to arrive first, and nothing when the SSL is gone or OpenSSL
      failed. With Done both boundaries are settled at the two Finished records, everything OpenSSL wrote was taken,
      and both blobs are there unless a scanner overflowed. */
  lemma DoneMeansReady(kdf: Kdf, session: Session, w: World, m: Move, w': World)
    requires session.Valid() && Reachable(kdf, session, w) && LegalMove(kdf, session, w, m, w') && m.action.Step?
    ensures var p, q, peer := Side(w, m.byServer), Side(w', m.byServer), Side(w', !m.byServer);
            var answer := X.Step(kdf, p.ex, m.action.ssl).1;
            && (answer == Some(X.Done) <==> q.ex.live && q.ex.done && q.ex.output == [])
            && (answer == Some(X.Writing) <==> StepGoesOn(p, m.action.ssl) && q.ex.output != [])
            && (answer == Some(X.Reading) <==> p.ex.live && !p.ex.done && m.action.ssl.outcome == X.WantMore && q.ex.output == [])
            && (answer == None <==> !StepGoesOn(p, m.action.ssl))
            && (answer == Some(X.Done) ==> SettledAtFinisheds(q, peer) && ReadyUnlessOverflowed(q))
  {
    var p, peer, out, inbound := Side(w, m.byServer), Side(w, !m.byServer), Wire(w, m.byServer), Wire(w, !m.byServer);
    ReachableHolds(kdf, session, w);
    SidesPaired(w, m.byServer);
    PartyStepAnswers(kdf, session, p, peer, out, inbound, m.action);
  }

  ghost predicate SettledAtFinisheds(p: Party, peer: Party) {
    && p.ex.done && p.ex.taken == p.Stream()
    && p.finished == Some(p.ex.txAtDone) && peer.finished == Some(p.ex.rxAtDone)
  }

  ghost predicate ReadyUnlessOverflowed(p: Party) {
    && p.ex.Valid()
    && forall dir: X.Direction :: X.CryptoInfo(p.ex, dir).1.Some? <==> !p.ex.Overflowed()
  }

  predicate StepGoesOn(p: Party, ssl: X.Ssl) {
    p.ex.live && (p.ex.done || ssl.outcome != X.Broken)
  }

  lemma PartyStepAnswers(kdf: Kdf, session: Session, p: Party, peer: Party, out: seq<byte>, inbound: seq<byte>, a: Action)
    requires a.Step? && session.Valid() && Paired(p, peer, out, inbound) && KeysHold(kdf, session, p)
    requires Legal(session, p, peer, inbound, a)
    ensures var answer, q := X.Step(kdf, p.ex, a.ssl).1, Acted(kdf, p, peer, inbound, a);
            && (answer == Some(X.Done) <==> q.ex.live && q.ex.done && q.ex.output == [])
            && (answer == Some(X.Writing) <==> StepGoesOn(p, a.ssl) && q.ex.output != [])
            && (answer == Some(X.Reading) <==> p.ex.live && !p.ex.done && a.ssl.outcome == X.WantMore && q.ex.output == [])
            && (answer == None <==> !StepGoesOn(p, a.ssl))
            && (answer == Some(X.Done) ==> SettledAtFinisheds(q, peer) && ReadyUnlessOverflowed(q))
  {
    var answer, q := X.Step(kdf, p.ex, a.ssl).1, Acted(kdf, p, peer, inbound, a);
    DuplexKeys.StepKeeps(kdf, session, p, peer, inbound, a);
    DuplexBytes.StepKeeps(kdf, session, p, peer, out, inbound, a);
    ExchangeLaws.StepAnswersIff(kdf, p.ex, a.ssl);
    assert q.ex == if p.ex.live && !p.ex.done then X.Step(kdf, p.ex, a.ssl).0 else p.ex;
    if answer == Some(X.Done) {
      ReadySide(q, peer, out, inbound);
    }
  }

  lemma ReadySide(p: Party, peer: Party, out: seq<byte>, inbound: seq<byte>)
    requires Paired(p, peer, out, inbound) && p.ex.live && p.ex.done && p.ex.output == []
    ensures SettledAtFinisheds(p, peer) && ReadyUnlessOverflowed(p)
  {
    assert p.Stream() == p.ex.taken;
  }

  /** A side of a reachable world that still has its SSL answers the same without it exactly when nothing waits,
      and then goes on doing so through any updates and blobs. */
  lemma ReleaseInAWorld(kdf: Kdf, session: Session, w: World, server: bool, later: seq<ExchangeLaws.Call>)
    requires session.Valid() && Reachable(kdf, session, w) && Side(w, server).ex.live
    requires forall i :: 0 <= i < |later| ==> ExchangeLaws.Rekeying(later[i])
    ensures Side(w, server).ex.Valid()
    ensures ExchangeLaws.ReleasesCleanlyIff(kdf, ExchangeLaws.Traffic(Side(w, server).ex, [], []), later)
  {
    ReachableHolds(kdf, session, w);
    SidesPaired(w, server);
    LiveSideIsSound(Side(w, server), Side(w, !server), Wire(w, server), Wire(w, !server));
    ExchangeLaws.SoundReleases(kdf, ExchangeLaws.Traffic(Side(w, server).ex, [], []), later);
  }

  lemma LiveSideIsSound(p: Party, peer: Party, out: seq<byte>, inbound: seq<byte>)
    requires Paired(p, peer, out, inbound) && p.ex.live
    ensures ExchangeLaws.Sound(p.ex)
  {
    assert p.ex.Consumed() == p.read;
  }

  /** No nonce twice. In every reachable world each direction of each side has protected or opened every
      record under its own (epoch, sequence) pair, OpenSSL's and the kernel's records together. */
  lemma NoNonceTwice(kdf: Kdf, session: Session, w: World, server: bool, dir: X.Direction)
    requires session.Valid() && Reachable(kdf, session, w)
    ensures Distinct(Side(w, server).LedgerOf(dir).used)
  {
    ReachableHolds(kdf, session, w);
  }

  /** The handover itself. Before it OpenSSL has used 0..k-1 and nothing else; a blob of the first key tells
      the kernel exactly k, one of a later key 0; at most 64 records come before. The key in the blob is that
      of the epoch the kernel counts under from then on. */
  lemma KernelGoesOnAtK(kdf: Kdf, session: Session, w: World, server: bool, dir: X.Direction)
    requires session.Valid() && Reachable(kdf, session, w) && Allowed(session, w, Move(server, Install(dir)))
    requires w.server.ex.Valid() && w.client.ex.Valid()
    ensures var before := Side(w, server).LedgerOf(dir);
            var after := Side(Moved(kdf, w, Move(server, Install(dir))), server).LedgerOf(dir);
            && after.installed && after.used == before.used && after.epoch == Side(w, server).Turns(dir)
            && (after.epoch > 0 ==> after.next == 0 && forall u :: u in before.used ==> u.0 < after.epoch)
            && (after.epoch == 0 ==> before.used == Firsts(after.next) && after.next <= CAPACITY)
    ensures var b := X.CryptoInfo(Side(w, server).ex, dir).1.value;
            KernelReads(kdf, session.cipher, EpochSecret(kdf, session, w, server, dir), b)
  {
    BlobHoldsTheEpochsKey(kdf, session, w, server, dir);
    ReachableHolds(kdf, session, w);
    SidesPaired(w, server);
    InstalledLedger(kdf, session, Side(w, server), Side(w, !server), Wire(w, server), Wire(w, !server), dir);
  }
}
