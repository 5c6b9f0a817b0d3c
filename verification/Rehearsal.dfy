/** Whole runs under the rules of module Duplex, record by record: a handshake with a ticket, a blob asked for
    inside a record, a flight too long to count, and a handover with an update and a release. They show that the
    rules leave room for the worlds the main results are about. */
module Rehearsal {
  import opened Bytes
  import opened Records
  import opened KeyLog
  import opened KeyChain
  import opened Duplex
  import opened DuplexBytes
  import opened DuplexKeys
  import opened DuplexNonces
  import opened Handover
  import X = Exchange

  /** An empty record, standing for every flight. */
  const RECORD: seq<byte> := [22, 3, 3, 0, 0]

  function Copies(k: nat): (s: seq<byte>)
    ensures |s| == 5 * k
  {
    if k == 0 then [] else Copies(k - 1) + RECORD
  }

  lemma {:induction false} CopiesParse(k: nat)
    ensures Whole(Copies(k)) && |Ends(Copies(k))| == k
    ensures forall i :: 0 <= i < k ==> Ends(Copies(k))[i] == 5 * (i + 1)
  {
    if k > 0 {
      CopiesParse(k - 1);
      var s := Copies(k - 1);
      assert (s + RECORD)[|s| + 3] == 0 && (s + RECORD)[|s| + 4] == 0;
      Grow(s, RECORD);
    }
  }

  lemma Extend(kdf: Kdf, session: Session, w: World, m: Move)
    requires w.server.ex.Valid() && w.client.ex.Valid()
    requires Reachable(kdf, session, w) && Allowed(session, w, m)
    ensures Reachable(kdf, session, Moved(kdf, w, m))
  {
    var run :| LegalRun(kdf, session, run) && w == run.worlds[|run.moves|];
    LongerRun(kdf, session, run, m, Moved(kdf, w, m));
    var longer := Run(run.worlds + [Moved(kdf, w, m)], run.moves + [m]);
    assert longer.worlds[|longer.moves|] == Moved(kdf, w, m);
  }

  lemma LongerRun(kdf: Kdf, session: Session, run: Run, m: Move, w': World)
    requires LegalRun(kdf, session, run) && LegalMove(kdf, session, run.worlds[|run.moves|], m, w')
    ensures LegalRun(kdf, session, Run(run.worlds + [w'], run.moves + [m]))
  {
    var longer := Run(run.worlds + [w'], run.moves + [m]);
    forall i | 0 <= i < |longer.moves|
      ensures LegalMove(kdf, session, longer.worlds[i], longer.moves[i], longer.worlds[i + 1])
    {
      if i < |run.moves| {
        assert longer.moves[i] == run.moves[i];
      }
    }
  }

  /** A side before any handover: records waiting in, written and not taken, taken and fed, each counted. */
  ghost predicate At(p: Party, waiting: nat, owed: nat, taken: nat, fed: nat) {
    && p.ex.Valid() && p.ex.live && !p.tx.installed && !p.rx.installed
    && p.ex.input == Copies(waiting) && p.ex.output == Copies(owed) && p.ex.taken == Copies(taken) && p.ex.fed == Copies(fed)
    && waiting <= fed <= 3 && p.read == 5 * (fed - waiting) && p.Stream() == Copies(taken + owed)
  }

  lemma One()
    ensures Copies(1) == RECORD && Copies(0) == []
    ensures forall k: nat :: Copies(k) + RECORD == Copies(k + 1)
  {
    assert Copies(0) + RECORD == RECORD;
  }

  lemma Takes(kdf: Kdf, p: Party, peer: Party, inbound: seq<byte>, waiting: nat, taken: nat, fed: nat)
    requires At(p, waiting, 1, taken, fed)
    ensures var q := Acted(kdf, p, peer, inbound, Take(5));
            && At(q, waiting, 0, taken + 1, fed) && Outbound(p, [], Take(5)) == RECORD
            && q == p.(ex := p.ex.(output := [], taken := Copies(taken + 1)))
  {
    One();
    assert RECORD[..5] == RECORD && RECORD[5..] == [];
    assert Copies(taken + 1) + Copies(0) == Copies(taken + 1);
  }

  lemma Gets(kdf: Kdf, p: Party, peer: Party, owed: nat, taken: nat, fed: nat)
    requires At(p, 0, owed, taken, fed) && fed <= 2
    ensures var q := Acted(kdf, p, peer, RECORD, Deliver(5));
            && At(q, 1, owed, taken, fed + 1) && Inbound(RECORD, Deliver(5)) == []
            && q == p.(ex := p.ex.(input := RECORD, fed := Copies(fed + 1)))
  {
    One();
    assert RECORD[..5] == RECORD && RECORD[5..] == [] && [] + RECORD == RECORD;
  }

  /** A handshake call that reads what waits and writes one record. */
  lemma Steps(kdf: Kdf, session: Session, p: Party, peer: Party, out: seq<byte>, inbound: seq<byte>,
              ssl: X.Ssl, finishes: bool, waiting: nat, taken: nat, fed: nat)
    requires session.Valid() && KeysHold(kdf, session, p) && At(p, waiting, 0, taken, fed) && !p.ex.done
    requires Legal(session, p, peer, inbound, Step(ssl, finishes)) && ssl.eaten == 5 * waiting && ssl.wrote == RECORD
    ensures var q := Acted(kdf, p, peer, inbound, Step(ssl, finishes));
            && At(q, 0, 1, taken, fed) && q.ex.isServer == p.ex.isServer
            && q.ex.done == (ssl.outcome == X.Complete)
            && q.finished == (if finishes then Some(5 * (taken + 1)) else p.finished)
            && q.txTurns == p.txTurns && q.rxTurns == p.rxTurns
  {
    CopiesParse(1);
    HandshakeEffect(kdf, p.ex, ssl);
    DuplexKeys.StepKeeps(kdf, session, p, peer, inbound, Step(ssl, finishes));
    Stepped(p, Acted(kdf, p, peer, inbound, Step(ssl, finishes)), ssl, waiting, taken, fed);
  }

  lemma Stepped(p: Party, q: Party, ssl: X.Ssl, waiting: nat, taken: nat, fed: nat)
    requires At(p, waiting, 0, taken, fed) && ssl.eaten == 5 * waiting && ssl.wrote == RECORD && q.ex.Valid()
    requires q.ex.input == p.ex.input[ssl.eaten..] && q.ex.output == p.ex.output + ssl.wrote && q.read == p.read + ssl.eaten
    requires q.ex.taken == p.ex.taken && q.ex.fed == p.ex.fed && q.ex.live && !q.tx.installed && !q.rx.installed
    ensures At(q, 0, 1, taken, fed) && |q.ex.taken + q.ex.output| == 5 * (taken + 1)
  {
    One();
    assert p.ex.input[5 * waiting..] == [] && [] + RECORD == RECORD;
  }

  lemma Logs(kdf: Kdf, session: Session, p: Party, peer: Party, inbound: seq<byte>, slot: Slot)
    requires session.Valid() && p.ex.Valid()
    ensures var q := Acted(kdf, p, peer, inbound, KeyLine(Label(slot), [], session.Secret(slot)));
            && q == p.(ex := p.ex.(keys := q.ex.keys))
            && q.ex.keys.Of(slot).secret.length == |session.Secret(slot)|
            && (forall other: Slot :: other != slot ==> q.ex.keys.Of(other) == p.ex.keys.Of(other))
  {
    LineStored(p.ex.keys, slot, [], session.Secret(slot));
  }

  lemma MayLog(session: Session, p: Party, peer: Party, inbound: seq<byte>, slot: Slot)
    requires p.ex.live && !p.ex.done
    ensures Legal(session, p, peer, inbound, KeyLine(Label(slot), [], session.Secret(slot)))
  {
    LabelPrefixes(slot, Label(slot) + " ");
    assert CLIENT_LABEL[0] == 'C' && SERVER_LABEL[0] == 'S';
  }

  lemma SidesValid(kdf: Kdf, session: Session, w: World)
    requires session.Valid() && Reachable(kdf, session, w)
    ensures w.server.ex.Valid() && w.client.ex.Valid() && w.server.ex.isServer && !w.client.ex.isServer
    ensures KeysHold(kdf, session, w.server) && KeysHold(kdf, session, w.client) && BytesHold(w)
  {
    ReachableHolds(kdf, session, w);
  }

  /** The sender's record is taken and delivered. */
  lemma Crosses(kdf: Kdf, session: Session, w: World, server: bool, sw: nat, st: nat, sf: nat, ro: nat, rt: nat, rf: nat)
    returns (w': World)
    requires session.Valid() && Reachable(kdf, session, w) && Wire(w, server) == []
    requires At(Side(w, server), sw, 1, st, sf) && At(Side(w, !server), 0, ro, rt, rf) && rf <= 2
    ensures Reachable(kdf, session, w') && Wire(w', server) == [] && Wire(w', !server) == Wire(w, !server)
    ensures var s, r := Side(w', server), Side(w', !server);
            && At(s, sw, 0, st + 1, sf) && At(r, 1, ro, rt, rf + 1)
            && s == Side(w, server).(ex := Side(w, server).ex.(output := [], taken := Copies(st + 1)))
            && r == Side(w, !server).(ex := Side(w, !server).ex.(input := RECORD, fed := Copies(rf + 1)))
  {
    SidesValid(kdf, session, w);
    var sent := Moved(kdf, w, Move(server, Take(5)));
    Takes(kdf, Side(w, server), Side(w, !server), Wire(w, !server), sw, st, sf);
    Extend(kdf, session, w, Move(server, Take(5)));
    w' := Moved(kdf, sent, Move(!server, Deliver(5)));
    Gets(kdf, Side(sent, !server), Side(sent, server), ro, rt, rf);
    Extend(kdf, session, sent, Move(!server, Deliver(5)));
  }

  /** One side handles what waits and writes a record, in a handshake call. */
  lemma Calls(kdf: Kdf, session: Session, w: World, server: bool, ssl: X.Ssl, finishes: bool,
              waiting: nat, taken: nat, fed: nat) returns (w': World)
    requires session.Valid() && Reachable(kdf, session, w)
    requires At(Side(w, server), waiting, 0, taken, fed) && !Side(w, server).ex.done
    requires Allowed(session, w, Move(server, Step(ssl, finishes))) && ssl.eaten == 5 * waiting && ssl.wrote == RECORD
    ensures Reachable(kdf, session, w') && w'.down == w.down && w'.up == w.up && Side(w', !server) == Side(w, !server)
    ensures var p, q := Side(w, server), Side(w', server);
            && At(q, 0, 1, taken, fed) && q.ex.done == (ssl.outcome == X.Complete)
            && q.finished == (if finishes then Some(5 * (taken + 1)) else p.finished)
            && q.txTurns == p.txTurns && q.rxTurns == p.rxTurns
  {
    SidesValid(kdf, session, w);
    w' := Moved(kdf, w, Move(server, Step(ssl, finishes)));
    Steps(kdf, session, Side(w, server), Side(w, !server), Wire(w, server), Wire(w, !server), ssl, finishes, waiting, taken, fed);
    Extend(kdf, session, w, Move(server, Step(ssl, finishes)));
  }

  /** One secret arrives at one side. */
  lemma Learns(kdf: Kdf, session: Session, w: World, server: bool, slot: Slot) returns (w': World)
    requires session.Valid() && Reachable(kdf, session, w) && Side(w, server).ex.live && !Side(w, server).ex.done
    ensures Reachable(kdf, session, w') && w'.down == w.down && w'.up == w.up && Side(w', !server) == Side(w, !server)
    ensures var p, q := Side(w, server), Side(w', server);
            && q == p.(ex := p.ex.(keys := q.ex.keys)) && q.ex.Valid()
            && q.ex.keys.Of(slot).secret.length > 0
            && (forall other: Slot :: other != slot ==> q.ex.keys.Of(other) == p.ex.keys.Of(other))
  {
    SidesValid(kdf, session, w);
    var p, peer, inbound := Side(w, server), Side(w, !server), Wire(w, !server);
    MayLog(session, p, peer, inbound, slot);
    Logs(kdf, session, p, peer, inbound, slot);
    var a := KeyLine(Label(slot), [], session.Secret(slot));
    Extend(kdf, session, w, Move(server, a));
    w' := Moved(kdf, w, Move(server, a));
    assert Side(w', server) == Acted(kdf, p, peer, inbound, a);
  }

  ghost predicate Informed(p: Party) {
    p.ex.keys.Of(ClientSlot).secret.length > 0 && p.ex.keys.Of(ServerSlot).secret.length > 0
  }

  lemma Informs(kdf: Kdf, session: Session, w: World, server: bool, waiting: nat, owed: nat, taken: nat, fed: nat)
    returns (w': World)
    requires session.Valid() && Reachable(kdf, session, w)
    requires At(Side(w, server), waiting, owed, taken, fed) && !Side(w, server).ex.done
    ensures Reachable(kdf, session, w') && w'.down == w.down && w'.up == w.up && Side(w', !server) == Side(w, !server)
    ensures var p, q := Side(w, server), Side(w', server);
            && At(q, waiting, owed, taken, fed) && !q.ex.done && Informed(q)
            && q.finished == p.finished && q.txTurns == p.txTurns && q.rxTurns == p.rxTurns
  {
    w' := Learns(kdf, session, w, server, ClientSlot);
    w' := Learns(kdf, session, w', server, ServerSlot);
    assert Side(w', server).Stream() == Side(w, server).Stream();
  }

  /** The call in which a side reads the peer's Finished and is done. */
  lemma MayComplete(session: Session, p: Party, peer: Party, inbound: seq<byte>, taken: nat, fed: nat)
    requires At(p, 1, 0, taken, fed) && peer.finished == Some(5 * fed) && Informed(p) && !p.ex.done
    requires p.ex.isServer == p.finished.Some?
    ensures Legal(session, p, peer, inbound, Step(X.Ssl(5, RECORD, X.Complete, session.cipher, []), !p.ex.isServer))
  {
    One();
    CopiesParse(taken + 1);
    assert p.Stream() + RECORD == Copies(taken + 1);
  }

  ghost predicate Idle(w: World) {
    w.client.txTurns == w.client.rxTurns == w.server.txTurns == w.server.rxTurns == 0 && w.down == [] && w.up == []
  }

  /** The client's hello, the server's flight up to its Finished, and the secrets at both sides. */
  lemma FirstFlights(kdf: Kdf, session: Session) returns (w: World)
    requires session.Valid()
    ensures Reachable(kdf, session, w) && Idle(w)
    ensures At(w.client, 1, 0, 1, 1) && At(w.server, 0, 0, 1, 1) && !w.client.ex.done && !w.server.ex.done
    ensures w.server.finished == Some(5) && w.client.finished == None
    ensures Informed(w.client) && Informed(w.server)
  {
    One();
    CopiesParse(1);
    w := Start(0, 0);
    assert LegalRun(kdf, session, Run([w], []));
    assert w == Run([w], []).worlds[|Run([w], []).moves|];
    assert At(w.client, 0, 0, 0, 0) && At(w.server, 0, 0, 0, 0);
    assert [] + RECORD == RECORD;
    w := Calls(kdf, session, w, false, X.Ssl(0, RECORD, X.WantMore, NoCipher, []), false, 0, 0, 0);
    w := Crosses(kdf, session, w, false, 0, 0, 0, 0, 0, 0);
    w := Calls(kdf, session, w, true, X.Ssl(5, RECORD, X.WantMore, NoCipher, []), true, 1, 0, 1);
    w := Crosses(kdf, session, w, true, 0, 0, 1, 0, 1, 0);
    w := Informs(kdf, session, w, true, 0, 0, 1, 1);
    w := Informs(kdf, session, w, false, 1, 0, 1, 1);
  }

  /** The client's backlog call consumes the ticket. */
  lemma ReadsTheTicket(kdf: Kdf, session: Session, w: World) returns (w': World)
    requires session.Valid() && Reachable(kdf, session, w) && At(w.client, 1, 0, 2, 2) && w.client.ex.done
    ensures Reachable(kdf, session, w') && w'.server == w.server && w'.down == w.down && w'.up == w.up
    ensures At(w'.client, 0, 0, 2, 2) && w'.client.ex.done
    ensures w'.client.txTurns == w.client.txTurns && w'.client.rxTurns == w.client.rxTurns
    ensures w'.client.finished == w.client.finished
  {
    SidesValid(kdf, session, w);
    One();
    CopiesParse(2);
    var m := Move(false, Backlog(X.Ssl(5, [], X.WantMore, NoCipher, [])));
    assert w.client.Stream() + [] == w.client.Stream() == Copies(2);
    Extend(kdf, session, w, m);
    w' := Moved(kdf, w, m);
    assert w.client.ex.input[5..] == [] && w.client.ex.output + [] == [];
  }

  /** Two records on a stream, one of them past the first. */
  lemma TwoRecords()
    ensures var s := Copies(2);
            && |s| == 10 && Capped(Ends(s)) == Ends(s)
            && CountIn(Ends(s), 5, 10) == 1 && CountIn(Ends(s), 10, 10) == 0
  {
    CopiesParse(2);
    var ends := Ends(Copies(2));
    assert ends[..2] == ends && ends[..1] == [5] && [5][..0] == [];
    assert CountIn([5], 5, 10) == 0 && CountIn([5], 10, 10) == 0;
  }

  /** A side that is done, has nothing waiting or owed, and sent and received two records each. */
  lemma SideTotals(p: Party, out: seq<byte>, peer: Party, inbound: seq<byte>)
    requires Paired(p, peer, out, inbound) && At(p, 0, 0, 2, 2) && p.ex.done
    requires !p.ex.Key(X.Tx).rekeyed && !p.ex.Key(X.Rx).rekeyed
    ensures X.Answers(p.ex)
    ensures p.ex.txAtDone == 5 ==> X.RecordSequence(p.ex, X.Tx) == 1
    ensures p.ex.txAtDone == 10 ==> X.RecordSequence(p.ex, X.Tx) == 0
    ensures p.ex.rxAtDone == 5 ==> X.RecordSequence(p.ex, X.Rx) == 1
    ensures p.ex.rxAtDone == 10 ==> X.RecordSequence(p.ex, X.Rx) == 0
  {
    TwoRecords();
    CopiesParse(2);
    assert p.ex.Consumed() == 10;
  }

  lemma Totals(kdf: Kdf, session: Session, w: World)
    requires session.Valid() && Reachable(kdf, session, w) && Idle(w)
    requires At(w.client, 0, 0, 2, 2) && At(w.server, 0, 0, 2, 2) && w.client.ex.done && w.server.ex.done
    requires w.server.finished == Some(5) && w.client.finished == Some(10)
    ensures Drained(w, true) && Drained(w, false)
    ensures X.RecordSequence(w.server.ex, X.Tx) == 1 == X.RecordSequence(w.client.ex, X.Rx)
    ensures X.RecordSequence(w.client.ex, X.Tx) == 0 == X.RecordSequence(w.server.ex, X.Rx)
  {
    SidesValid(kdf, session, w);
    BoundariesAreTheFinisheds(kdf, session, w, true);
    BoundariesAreTheFinisheds(kdf, session, w, false);
    SideTotals(w.server, w.down, w.client, w.up);
    SideTotals(w.client, w.up, w.server, w.down);
  }

  /** A whole handshake with one ticket is a legal run. At its end both sides are done and drained, the
      ticket has moved the server's sending sequence and the client's receiving one to 1, nothing moved the other
      direction, and a step answers Done at both. */
  lemma AWholeHandshake(kdf: Kdf, session: Session) returns (w: World)
    requires session.Valid()
    ensures Reachable(kdf, session, w) && Drained(w, true) && Drained(w, false)
    ensures X.RecordSequence(w.server.ex, X.Tx) == 1 == X.RecordSequence(w.client.ex, X.Rx)
    ensures X.RecordSequence(w.client.ex, X.Tx) == 0 == X.RecordSequence(w.server.ex, X.Rx)
    ensures w.server.ex.Valid() && forall ssl: X.Ssl :: X.Step(kdf, w.server.ex, ssl).1 == Some(X.Done)
    ensures w.client.ex.Valid() && forall ssl: X.Ssl :: X.Step(kdf, w.client.ex, ssl).1 == Some(X.Done)
  {
    w := LastFlights(kdf, session);
    Totals(kdf, session, w);
    SaysDone(kdf, w.server);
    SaysDone(kdf, w.client);
  }

  lemma SaysDone(kdf: Kdf, p: Party)
    requires At(p, 0, 0, 2, 2) && p.ex.done
    ensures forall ssl: X.Ssl :: X.Step(kdf, p.ex, ssl).1 == Some(X.Done)
  {
  }

  /** The client's Finished, the server's ticket, and its reading. */
  lemma LastFlights(kdf: Kdf, session: Session) returns (w: World)
    requires session.Valid()
    ensures Reachable(kdf, session, w) && Idle(w)
    ensures At(w.client, 0, 0, 2, 2) && At(w.server, 0, 0, 2, 2) && w.client.ex.done && w.server.ex.done
    ensures w.server.finished == Some(5) && w.client.finished == Some(10)
  {
    w := BothDone(kdf, session);
    w := Crosses(kdf, session, w, true, 0, 1, 2, 0, 2, 1);
    w := ReadsTheTicket(kdf, session, w);
  }

  /** Up to the call that ends the server's handshake, with the ticket still to be taken. */
  lemma BothDone(kdf: Kdf, session: Session) returns (w: World)
    requires session.Valid()
    ensures Reachable(kdf, session, w) && Idle(w)
    ensures At(w.client, 0, 0, 2, 1) && At(w.server, 0, 1, 1, 2) && w.client.ex.done && w.server.ex.done
    ensures w.server.finished == Some(5) && w.client.finished == Some(10)
  {
    w := FirstFlights(kdf, session);
    SidesValid(kdf, session, w);
    MayComplete(session, w.client, w.server, w.down, 1, 1);
    w := Calls(kdf, session, w, false, X.Ssl(5, RECORD, X.Complete, session.cipher, []), true, 1, 1, 1);
    w := Crosses(kdf, session, w, false, 0, 1, 1, 0, 1, 1);
    SidesValid(kdf, session, w);
    MayComplete(session, w.server, w.client, w.up, 1, 2);
    w := Calls(kdf, session, w, true, X.Ssl(5, RECORD, X.Complete, session.cipher, []), false, 1, 1, 2);
  }

  // ---- a blob in the middle of a record ----

  /** The first three octets of the ticket. */
  const PART: seq<byte> := RECORD[..3]

  lemma PartOfARecord()
    ensures !Whole(RECORD + PART) && |Ends(RECORD + PART)| <= 1
  {
    One();
    CopiesParse(1);
    Grow(RECORD, PART);
  }

  /** One more move of one side. */
  lemma Goes(kdf: Kdf, session: Session, w: World, server: bool, a: Action) returns (w': World)
    requires session.Valid() && Reachable(kdf, session, w)
    requires Legal(session, Side(w, server), Side(w, !server), Wire(w, !server), a) && Side(w, server).ex.Valid()
    ensures Reachable(kdf, session, w') && Side(w', !server) == Side(w, !server)
    ensures Side(w', server) == Acted(kdf, Side(w, server), Side(w, !server), Wire(w, !server), a)
    ensures Wire(w', server) == Outbound(Side(w, server), Wire(w, server), a)
    ensures Wire(w', !server) == Inbound(Wire(w, !server), a)
  {
    SidesValid(kdf, session, w);
    Extend(kdf, session, w, Move(server, a));
    w' := Moved(kdf, w, Move(server, a));
  }

  /** Three octets of the ticket arrive. */
  lemma GetsPart(kdf: Kdf, session: Session, w: World) returns (w': World)
    requires session.Valid() && Reachable(kdf, session, w) && At(w.client, 0, 0, 2, 1) && w.down == RECORD
    ensures Reachable(kdf, session, w') && w'.server == w.server
    ensures w'.client == w.client.(ex := w.client.ex.(input := PART, fed := RECORD + PART))
  {
    One();
    CopiesParse(1);
    DeliverEffect(w.client.ex, PART);
    assert [] + PART == PART && RECORD[..3] == PART && Copies(1) + PART == RECORD + PART;
    w' := Goes(kdf, session, w, false, Deliver(3));
  }

  /** The backlog call reads them. */
  lemma ReadsPart(kdf: Kdf, session: Session, w: World) returns (w': World)
    requires session.Valid() && Reachable(kdf, session, w) && w.client.ex.live && w.client.ex.done && !w.client.rx.installed
    requires w.client.ex.input == PART && w.client.ex.output == [] && Whole(w.client.Stream())
    ensures Reachable(kdf, session, w') && w'.server == w.server
    ensures w'.client.ex == w.client.ex.(input := []) && w'.client.rxTurns == w.client.rxTurns
  {
    SidesValid(kdf, session, w);
    assert w.client.Stream() + [] == w.client.Stream();
    assert PART[3..] == [] && w.client.ex.output + [] == [];
    w' := Goes(kdf, session, w, false, Backlog(X.Ssl(3, [], X.WantMore, NoCipher, [])));
  }

  /** A reachable world in which the client's backlog is done, a receiving blob is answered, and the kernel it
      goes to would start inside a record: a caller that feeds what a socket gives it has to go on feeding until
      a record ends. */
  lemma ABlobInTheMiddleOfARecord(kdf: Kdf, session: Session) returns (w: World)
    requires session.Valid()
    ensures Reachable(kdf, session, w) && w.client.ex.Valid() && w.client.ex.input == []
    ensures X.CryptoInfo(w.client.ex, X.Rx).1.Some? && !MeetsTheNextRecord(w.client, w.server)
  {
    w := PartRead(kdf, session);
    SidesValid(kdf, session, w);
    PartOfARecord();
    CopiesParse(2);
    DoneNotTurned(kdf, session, w);
    KernelMeetsTheNextRecordIff(kdf, session, w, false);
  }

  lemma PartRead(kdf: Kdf, session: Session) returns (w: World)
    requires session.Valid()
    ensures Reachable(kdf, session, w) && w.client.ex.done && w.client.rxTurns == 0
    ensures w.client.ex.input == [] == w.client.ex.output && w.client.ex.fed == RECORD + PART && w.client.ex.taken == Copies(2)
  {
    w := BothDone(kdf, session);
    SidesValid(kdf, session, w);
    Takes(kdf, w.server, w.client, w.up, 0, 1, 2);
    Extend(kdf, session, w, Move(true, Take(5)));
    w := Moved(kdf, w, Move(true, Take(5)));
    w := GetsPart(kdf, session, w);
    CopiesParse(2);
    w := ReadsPart(kdf, session, w);
  }

  lemma DoneNotTurned(kdf: Kdf, session: Session, w: World)
    requires session.Valid() && Reachable(kdf, session, w) && w.client.ex.done && w.client.rxTurns == 0
    ensures !w.client.ex.Key(X.Rx).rekeyed
  {
    SidesValid(kdf, session, w);
  }

  // ---- a flight too long to count ----

  /** The two counts of a stream whose first two records are the handshake's. */
  ghost predicate Flown(s: seq<byte>, many: nat) {
    && Whole(s) && |Ends(s)| == 2 + many
    && CountIn(Ends(s), 10, |s|) == many && CountIn(Capped(Ends(s)), 10, |s|) == Min(many, 62)
  }

  lemma FlightRecords(flight: seq<Fragment>)
    requires Frames(flight)
    ensures Flown(Copies(2) + Stream(flight), |flight|)
  {
    CopiesParse(2);
    FramedBehind(Copies(2), flight);
    FlownBehind(Copies(2), Stream(flight), |flight|);
  }

  lemma FlownBehind(s: seq<byte>, t: seq<byte>, many: nat)
    requires |s| == 10 && |Ends(s)| == 2 && (forall i :: 0 <= i < 2 ==> Ends(s)[i] <= 10)
    requires Whole(s + t) && |Ends(s + t)| == 2 + many
    ensures Flown(s + t, many)
  {
    EndsAppend(s, t, 0);
    NewEndsArePast(s, t);
    PastTheTwo(Ends(s), EndsFrom(s + t, Tail(s)), |s + t|);
    PastTheTwoCapped(Ends(s), EndsFrom(s + t, Tail(s)), |s + t|);
  }

  lemma PastTheTwoCapped(two: seq<nat>, more: seq<nat>, upto: nat)
    requires |two| == 2 && forall i :: 0 <= i < |two| ==> two[i] <= 10
    requires forall i :: 0 <= i < |more| ==> 10 < more[i] <= upto
    ensures CountIn(Capped(two + more), 10, upto) == Min(|more|, 62)
  {
    var kept := more[..Min(|more|, 62)];
    assert Capped(two + more) == two + kept;
    PastTheTwo(two, kept, upto);
  }

  lemma PastTheTwo(two: seq<nat>, more: seq<nat>, upto: nat)
    requires forall i :: 0 <= i < |two| ==> two[i] <= 10
    requires forall i :: 0 <= i < |more| ==> 10 < more[i] <= upto
    ensures CountIn(two + more, 10, upto) == |more|
  {
    CountConcat(two, more, 10, upto);
    CountNone(two, 10, upto);
    CountAll(more, 10, upto);
  }

  /** A side with its SSL that is done and was not handed over in either direction. */
  ghost predicate Keeps(p: Party) {
    p.ex.Valid() && p.ex.live && p.ex.done && !p.tx.installed && !p.rx.installed && p.txTurns == 0 && p.rxTurns == 0
  }

  lemma NotTurned(kdf: Kdf, session: Session, p: Party, dir: X.Direction)
    requires KeysHold(kdf, session, p) && p.ex.done && p.Turns(dir) == 0
    ensures !p.ex.Key(dir).rekeyed
  {
  }

  /** The client writes those records. */
  lemma WritesMany(kdf: Kdf, session: Session, w: World, flight: seq<Fragment>) returns (w': World)
    requires session.Valid() && Frames(flight) && Reachable(kdf, session, w) && Keeps(w.client)
    requires w.client.ex.input == [] == w.client.ex.output && w.client.ex.taken == Copies(2)
    ensures Reachable(kdf, session, w') && w'.server == w.server && Keeps(w'.client) && w'.up == w.up
    ensures w'.client.ex == w.client.ex.(output := Stream(flight)) && w'.client.finished == w.client.finished
  {
    SidesValid(kdf, session, w);
    FlightRecords(flight);
    assert w.client.Stream() == Copies(2);
    BacklogWrites(kdf, w.client, w.server, w.down, Stream(flight));
    w' := Goes(kdf, session, w, false, Backlog(X.Ssl(0, Stream(flight), X.WantMore, NoCipher, [])));
  }

  lemma BacklogWrites(kdf: Kdf, p: Party, peer: Party, inbound: seq<byte>, bytes: seq<byte>)
    requires Keeps(p) && p.ex.input == [] == p.ex.output
    ensures var q := Acted(kdf, p, peer, inbound, Backlog(X.Ssl(0, bytes, X.WantMore, NoCipher, [])));
            Keeps(q) && q.ex == p.ex.(output := bytes) && q.finished == p.finished
  {
    assert [] + bytes == bytes;
  }

  /** All of them are taken. */
  lemma SendsMany(kdf: Kdf, session: Session, w: World, flight: seq<Fragment>) returns (w': World)
    requires session.Valid() && Reachable(kdf, session, w) && Keeps(w.client) && Frames(flight) && |Stream(flight)| < TWO_31
    requires w.client.ex.output == Stream(flight) && w.client.ex.taken == Copies(2) && w.up == []
    ensures Reachable(kdf, session, w') && w'.server == w.server && Keeps(w'.client) && w'.up == Stream(flight)
    ensures w'.client == w.client.(ex := w.client.ex.(output := [], taken := Copies(2) + Stream(flight)))
  {
    TakesAll(kdf, w.client, w.server, w.down, Stream(flight));
    w' := Goes(kdf, session, w, false, Take(|Stream(flight)|));
  }

  lemma TakesAll(kdf: Kdf, p: Party, peer: Party, inbound: seq<byte>, bytes: seq<byte>)
    requires p.ex.Valid() && p.ex.live && p.ex.output == bytes && |bytes| < TWO_31
    ensures Acted(kdf, p, peer, inbound, Take(|bytes|)) == p.(ex := p.ex.(output := [], taken := p.ex.taken + bytes))
    ensures Outbound(p, [], Take(|bytes|)) == bytes
  {
    assert bytes[..|bytes|] == bytes && bytes[|bytes|..] == [] && [] + bytes == bytes;
  }

  /** All of them arrive. */
  lemma GetsMany(kdf: Kdf, session: Session, w: World, flight: seq<Fragment>) returns (w': World)
    requires session.Valid() && Reachable(kdf, session, w) && Keeps(w.server) && Frames(flight) && |Stream(flight)| < TWO_31
    requires w.server.ex.input == [] && w.server.ex.fed == Copies(2) && w.up == Stream(flight)
    ensures Reachable(kdf, session, w') && w'.client == w.client && Keeps(w'.server)
    ensures w'.server == w.server.(ex := w.server.ex.(input := Stream(flight), fed := Copies(2) + Stream(flight)))
  {
    DeliversAll(kdf, w.server, w.client, Stream(flight));
    w' := Goes(kdf, session, w, true, Deliver(|Stream(flight)|));
  }

  lemma DeliversAll(kdf: Kdf, p: Party, peer: Party, bytes: seq<byte>)
    requires p.ex.Valid() && p.ex.live && p.ex.input == [] && |bytes| < TWO_31
    ensures Acted(kdf, p, peer, bytes, Deliver(|bytes|)) == p.(ex := p.ex.(input := bytes, fed := p.ex.fed + bytes))
  {
    assert bytes[..|bytes|] == bytes && [] + bytes == bytes;
    DeliverEffect(p.ex, bytes);
  }

  /** And are read. */
  lemma ReadsMany(kdf: Kdf, session: Session, w: World, flight: seq<Fragment>) returns (w': World)
    requires session.Valid() && Reachable(kdf, session, w) && Keeps(w.server)
    requires w.server.ex.input == Stream(flight) && w.server.ex.output == []
    ensures Reachable(kdf, session, w') && w'.client == w.client && Keeps(w'.server)
    ensures w'.server.ex == w.server.ex.(input := [])
  {
    SidesValid(kdf, session, w);
    assert w.server.Stream() + [] == w.server.Stream();
    assert Stream(flight)[|Stream(flight)|..] == [] && w.server.ex.output + [] == [];
    w' := Goes(kdf, session, w, true, Backlog(X.Ssl(|Stream(flight)|, [], X.WantMore, NoCipher, [])));
  }

  lemma ManyWentAcross(kdf: Kdf, session: Session, flight: seq<Fragment>) returns (w: World)
    requires session.Valid() && Frames(flight) && |Stream(flight)| < TWO_31
    ensures Reachable(kdf, session, w) && Keeps(w.client) && Keeps(w.server)
    ensures w.client.ex.output == [] && w.client.ex.taken == Copies(2) + Stream(flight)
    ensures w.server.ex.input == [] == w.server.ex.output && w.server.ex.fed == Copies(2) + Stream(flight)
    ensures w.server.ex.taken == Copies(2) == w.client.ex.fed && w.client.finished == Some(10)
  {
    w := LastFlights(kdf, session);
    SidesValid(kdf, session, w);
    w := WritesMany(kdf, session, w, flight);
    w := SendsMany(kdf, session, w, flight);
    w := GetsMany(kdf, session, w, flight);
    w := ReadsMany(kdf, session, w, flight);
  }

  lemma ManySent(p: Party, peer: Party, out: seq<byte>, inbound: seq<byte>, many: nat)
    requires Paired(p, peer, out, inbound) && Keeps(p) && !p.ex.Key(X.Tx).rekeyed && p.finished == Some(10)
    requires p.ex.output == [] && Flown(p.ex.taken, many) && |Ends(p.ex.fed)| == 2
    ensures AppWritten(p) == many && X.RecordSequence(p.ex, X.Tx) == Min(many, 62)
    ensures X.Answers(p.ex) <==> many <= 62
  {
    assert p.Stream() == p.ex.taken;
  }

  lemma ManyRead(p: Party, peer: Party, out: seq<byte>, inbound: seq<byte>, many: nat)
    requires Paired(p, peer, out, inbound) && Keeps(p) && !p.ex.Key(X.Rx).rekeyed && peer.finished == Some(10)
    requires p.ex.output == [] == p.ex.input && Flown(p.ex.fed, many) && |Ends(p.ex.taken)| == 2
    ensures AppRead(p, peer) == many && X.RecordSequence(p.ex, X.Rx) == Min(many, 62)
    ensures X.Answers(p.ex) <==> many <= 62
  {
    assert p.read == |p.ex.fed| == p.ex.Consumed();
  }

  /** After its Finished a client writes any number of records with any bodies and the server reads them all, in a legal run. Both
      ends then say that number, or 62 if it is more, and from 63 on neither gives a blob. */
  lemma ALongFlight(kdf: Kdf, session: Session, flight: seq<Fragment>) returns (w: World)
    requires session.Valid() && Frames(flight) && |Stream(flight)| < TWO_31
    ensures Reachable(kdf, session, w) && w.client.ex.Valid() && w.server.ex.Valid() && w.client.ex.done && w.server.ex.done
    ensures !w.client.ex.Key(X.Tx).rekeyed && !w.server.ex.Key(X.Rx).rekeyed
    ensures AppWritten(w.client) == |flight| && X.RecordSequence(w.client.ex, X.Tx) == Min(|flight|, 62)
    ensures AppRead(w.server, w.client) == |flight| && X.RecordSequence(w.server.ex, X.Rx) == Min(|flight|, 62)
    ensures X.CryptoInfo(w.client.ex, X.Tx).1.Some? <==> |flight| <= 62
    ensures X.CryptoInfo(w.server.ex, X.Rx).1.Some? <==> |flight| <= 62
    ensures w.client.ex.taken == w.server.ex.fed == Copies(2) + Stream(flight)
  {
    w := ManyWentAcross(kdf, session, flight);
    SidesValid(kdf, session, w);
    NotTurned(kdf, session, w.client, X.Tx);
    NotTurned(kdf, session, w.server, X.Rx);
    CopiesParse(2);
    FlightRecords(flight);
    ManySent(w.client, w.server, w.up, w.down, |flight|);
    ManyRead(w.server, w.client, w.down, w.up, |flight|);
  }

  /** One record of 300 octets after the handshake's two: it ends 305 octets behind them, and both ends say 1. */
  lemma ARecordOf300Octets(kdf: Kdf, session: Session, body: seq<byte>) returns (w: World)
    requires session.Valid() && |body| == 300
    ensures Reachable(kdf, session, w) && Ends(w.server.ex.fed) == [5, 10, 315] == Ends(w.client.ex.taken)
    ensures X.RecordSequence(w.client.ex, X.Tx) == 1 == X.RecordSequence(w.server.ex, X.Rx)
  {
    var f := Fragment(23, 3, 3, body);
    OneRecordFlight(f);
    w := ALongFlight(kdf, session, [f]);
  }

  lemma OneRecordFlight(f: Fragment)
    requires f.Valid()
    ensures |Stream([f])| == 5 + |f.body| && Ends(Copies(2) + Stream([f])) == [5, 10, 15 + |f.body|]
  {
    StreamSnoc([], f);
    assert [] + [f] == [f] && [] + f.Octets() == f.Octets();
    CopiesParse(2);
    OneMoreRecord(Copies(2), f);
    LengthFramed([], f, 0);
    assert Ends(Copies(2)) == [5, 10];
  }

  // ---- the kernel takes over, and goes on after the release ----

  /** Where the server's sending kernel stands. */
  ghost predicate Stands(p: Party, turns: nat, used: seq<(nat, nat)>, next: nat) {
    p.ex.Valid() && X.Answers(p.ex) && p.txTurns == turns && p.tx == Ledger(used, true, turns, next)
  }

  lemma MayInstall(session: Session, p: Party, peer: Party, inbound: seq<byte>, dir: X.Direction)
    requires p.ex.Valid() && X.Answers(p.ex) && (p.LedgerOf(dir).installed ==> p.LedgerOf(dir).epoch < p.Turns(dir))
    ensures Legal(session, p, peer, inbound, Install(dir))
  {
  }

  lemma InstallMoves(kdf: Kdf, p: Party, peer: Party, inbound: seq<byte>, dir: X.Direction)
    requires p.ex.Valid()
    ensures var q := Acted(kdf, p, peer, inbound, Install(dir));
            && q.ex == p.ex.(keys := q.ex.keys) && X.Answers(q.ex) == X.Answers(p.ex)
            && q == p.(ex := q.ex).WithLedger(dir, q.LedgerOf(dir))
  {
    InstallEffect(p.ex, dir);
  }

  /** The server's blob of one direction goes to its kernel. */
  lemma Installs(kdf: Kdf, session: Session, w: World, dir: X.Direction) returns (w': World)
    requires session.Valid() && Reachable(kdf, session, w) && w.server.ex.Valid() && X.Answers(w.server.ex)
    requires w.server.LedgerOf(dir).installed ==> w.server.LedgerOf(dir).epoch < w.server.Turns(dir)
    ensures Reachable(kdf, session, w') && w'.server.ex.Valid() && X.Answers(w'.server.ex)
    ensures w'.server == w.server.(ex := w'.server.ex).WithLedger(dir, w'.server.LedgerOf(dir))
    ensures var before, after := w.server.LedgerOf(dir), w'.server.LedgerOf(dir);
            after == Ledger(before.used, true, w.server.Turns(dir), if w.server.Turns(dir) > 0 then 0 else |before.used|)
  {
    SidesValid(kdf, session, w);
    MayInstall(session, w.server, w.client, w.up, dir);
    InstallMoves(kdf, w.server, w.client, w.up, dir);
    KernelGoesOnAtK(kdf, session, w, true, dir);
    w' := Goes(kdf, session, w, true, Install(dir));
  }

  /** Both first blobs are installed after the ticket was sent. */
  lemma HandsOver(kdf: Kdf, session: Session) returns (w: World)
    requires session.Valid()
    ensures Reachable(kdf, session, w) && Stands(w.server, 0, [(0, 0)], 1) && w.server.rx.installed
  {
    w := LastFlights(kdf, session);
    Totals(kdf, session, w);
    SidesValid(kdf, session, w);
    TicketSpent(kdf, session, w);
    w := Installs(kdf, session, w, X.Tx);
    w := Installs(kdf, session, w, X.Rx);
  }

  lemma TicketSpent(kdf: Kdf, session: Session, w: World)
    requires session.Valid() && Reachable(kdf, session, w) && Idle(w) && At(w.server, 0, 0, 2, 2) && w.server.ex.done
    requires X.RecordSequence(w.server.ex, X.Tx) == 1
    ensures w.server.tx.used == [(0, 0)]
  {
    SidesValid(kdf, session, w);
    CopiesParse(2);
    ReachableHolds(kdf, session, w);
    SequencesAreTheCounts(kdf, session, w, true);
  }

  lemma KernelSends(kdf: Kdf, session: Session, w: World, turns: nat, used: seq<(nat, nat)>, next: nat) returns (w': World)
    requires session.Valid() && Reachable(kdf, session, w) && Stands(w.server, turns, used, next)
    ensures Reachable(kdf, session, w') && Stands(w'.server, turns, used + [(turns, next)], next + 1)
    ensures w'.server.rx == w.server.rx
  {
    w' := Goes(kdf, session, w, true, KernelRecord(X.Tx));
  }

  /** The key is turned and the next blob installed. */
  lemma Rekeys(kdf: Kdf, session: Session, w: World, turns: nat, used: seq<(nat, nat)>, next: nat) returns (w': World)
    requires session.Valid() && Reachable(kdf, session, w) && Stands(w.server, turns, used, next)
    ensures Reachable(kdf, session, w') && Stands(w'.server, turns + 1, used, 0)
    ensures w'.server.rx == w.server.rx
  {
    DuplexKeys.TurnEffect(kdf, w.server.ex, X.Tx);
    w' := Goes(kdf, session, w, true, NextKey(X.Tx));
    w' := Installs(kdf, session, w', X.Tx);
  }

  /** The whole handover at the server: both blobs installed, a record by the kernel, an update and its blob, a
      record under the new key, and the release. The blobs go on being answered after it. */
  lemma AWholeHandover(kdf: Kdf, session: Session) returns (w: World)
    requires session.Valid()
    ensures Reachable(kdf, session, w) && !w.server.ex.live && X.Answers(w.server.ex)
    ensures w.server.tx.used == [(0, 0), (0, 1), (1, 0)]
  {
    w := HandsOver(kdf, session);
    w := KernelSends(kdf, session, w, 0, [(0, 0)], 1);
    w := Rekeys(kdf, session, w, 0, [(0, 0)] + [(0, 1)], 2);
    w := KernelSends(kdf, session, w, 1, [(0, 0)] + [(0, 1)], 0);
    w := Releases(kdf, session, w);
  }

  lemma Releases(kdf: Kdf, session: Session, w: World) returns (w': World)
    requires session.Valid() && Reachable(kdf, session, w) && w.server.ex.Valid() && X.Answers(w.server.ex)
    requires w.server.tx.installed && w.server.rx.installed
    ensures Reachable(kdf, session, w') && !w'.server.ex.live && X.Answers(w'.server.ex) && w'.server.tx == w.server.tx
  {
    w' := Goes(kdf, session, w, true, Release);
  }
}
