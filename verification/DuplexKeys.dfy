/** Which secret and which blob each slot holds, in every world a legal run leads to. */
module DuplexKeys {
  import opened Bytes
  import opened Records
  import opened KeyLog
  import opened KeyChain
  import opened Duplex
  import X = Exchange

  /** A slot before the end of the handshake: its secret did not arrive yet or is the session's. */
  ghost predicate Arriving(k: Key, secret: seq<byte>) {
    k.Valid() && !k.rekeyed && (k.secret.Value() == [] || k.secret.Value() == secret)
  }

  /** Each direction holds its session secret after as many updates as it was given. */
  ghost predicate KeysHold(kdf: Kdf, session: Session, p: Party) {
    && p.ex.Valid()
    && if p.ex.done then
         && p.ex.server == p.ex.isServer && p.ex.cipher == session.cipher
         && Holds(kdf, session.cipher, p.ex.Key(X.Tx), session.Secret(X.SlotFor(p.ex.isServer, X.Tx)), p.txTurns)
         && Holds(kdf, session.cipher, p.ex.Key(X.Rx), session.Secret(X.SlotFor(p.ex.isServer, X.Rx)), p.rxTurns)
       else
         && p.txTurns == 0 && p.rxTurns == 0
         && Arriving(p.ex.keys.client, session.clientSecret) && Arriving(p.ex.keys.server, session.serverSecret)
  }

  lemma SameKeysHold(kdf: Kdf, session: Session, p: Party, q: Party)
    requires KeysHold(kdf, session, p)
    requires q.ex.keys == p.ex.keys && q.ex.done == p.ex.done && q.ex.server == p.ex.server
    requires q.ex.isServer == p.ex.isServer && q.ex.cipher == p.ex.cipher
    requires q.txTurns == p.txTurns && q.rxTurns == p.rxTurns
    ensures KeysHold(kdf, session, q)
  {
  }

  lemma LineKeeps(kdf: Kdf, session: Session, p: Party, peer: Party, inbound: seq<byte>, a: Action)
    requires a.KeyLine? && session.Valid() && KeysHold(kdf, session, p) && Legal(session, p, peer, inbound, a)
    ensures KeysHold(kdf, session, Acted(kdf, p, peer, inbound, a))
  {
    if a.tag == CLIENT_LABEL {
      LineStored(p.ex.keys, ClientSlot, a.random, a.secret);
    } else if a.tag == SERVER_LABEL {
      LineStored(p.ex.keys, ServerSlot, a.random, a.secret);
    } else {
      OtherLabelsIgnored(a.tag, a.random, a.secret);
    }
  }

  /** Deriving from a secret that has arrived succeeds and fills the slot with update number 0. */
  lemma FilledHolds(kdf: Kdf, c: Cipher, k: Key, secret: seq<byte>)
    requires Arriving(k, secret) && k.secret.length > 0
    ensures Filled(kdf, c, k).Some? && Holds(kdf, c, Filled(kdf, c, k).value, secret, 0)
  {
    FreshSequence(kdf, c, secret);
  }

  lemma DerivationSucceeds(kdf: Kdf, session: Session, x: X.Ex)
    requires session.Valid()
    requires Arriving(x.keys.client, session.clientSecret) && x.keys.client.secret.length > 0
    requires Arriving(x.keys.server, session.serverSecret) && x.keys.server.secret.length > 0
    ensures var (y, ok) := X.DeriveBoth(kdf, x, session.cipher);
            && ok && Holds(kdf, session.cipher, y.keys.client, session.clientSecret, 0)
            && Holds(kdf, session.cipher, y.keys.server, session.serverSecret, 0)
  {
    FilledHolds(kdf, session.cipher, x.keys.client, session.clientSecret);
    FilledHolds(kdf, session.cipher, x.keys.server, session.serverSecret);
  }

  /** The handshake is over exactly when OpenSSL says so: with suite and secrets in place nothing can fail. */
  lemma StepKeeps(kdf: Kdf, session: Session, p: Party, peer: Party, inbound: seq<byte>, a: Action)
    requires a.Step? && session.Valid() && KeysHold(kdf, session, p) && Legal(session, p, peer, inbound, a)
    ensures X.Step(kdf, p.ex, a.ssl).0.done == (p.ex.done || (p.ex.live && a.ssl.outcome == X.Complete))
    ensures KeysHold(kdf, session, Acted(kdf, p, peer, inbound, a))
  {
    if p.ex.live && !p.ex.done {
      var q := Acted(kdf, p, peer, inbound, a);
      HandshakeKeys(kdf, session, p, a.ssl);
      assert q.ex == X.Handshake(kdf, p.ex, a.ssl).0;
      assert q.txTurns == p.txTurns && q.rxTurns == p.rxTurns;
    }
  }

  lemma HandshakeKeys(kdf: Kdf, session: Session, p: Party, ssl: X.Ssl)
    requires session.Valid() && KeysHold(kdf, session, p) && p.ex.live && !p.ex.done
    requires ssl.outcome == X.Complete ==>
               ssl.cipher == session.cipher && p.ex.keys.client.secret.length > 0 && p.ex.keys.server.secret.length > 0
    ensures var y := X.Handshake(kdf, p.ex, ssl).0;
            && y.done == (ssl.outcome == X.Complete) && y.isServer == p.ex.isServer
            && if y.done then
                 && y.server == y.isServer && y.cipher == session.cipher
                 && Holds(kdf, session.cipher, y.keys.client, session.clientSecret, 0)
                 && Holds(kdf, session.cipher, y.keys.server, session.serverSecret, 0)
               else y.keys == p.ex.keys
  {
    if ssl.outcome == X.Complete {
      DerivationSucceeds(kdf, session, X.Moved(p.ex, ssl));
    }
  }

  lemma TurnKeeps(kdf: Kdf, session: Session, p: Party, peer: Party, inbound: seq<byte>, a: Action)
    requires a.NextKey? && session.Valid() && KeysHold(kdf, session, p) && Legal(session, p, peer, inbound, a)
    ensures KeysHold(kdf, session, Acted(kdf, p, peer, inbound, a))
  {
    var q := Acted(kdf, p, peer, inbound, a);
    TurnHolds(kdf, session.cipher, p.ex.Key(a.dir), session.Secret(X.SlotFor(p.ex.isServer, a.dir)), p.Turns(a.dir));
    TurnEffect(kdf, p.ex, a.dir);
    assert q.ex == X.NextKey(kdf, p.ex, a.dir).0;
  }

  lemma TurnEffect(kdf: Kdf, x: X.Ex, dir: X.Direction)
    requires x.Valid() && x.done
    ensures var y := X.NextKey(kdf, x, dir).0;
            && y == x.(keys := y.keys) && y.Key(dir) == Turned(kdf, x.cipher, x.Key(dir))
            && forall other: X.Direction :: other != dir ==> y.Key(other) == x.Key(other)
  {
  }

  lemma AskKeeps(kdf: Kdf, session: Session, p: Party, dir: X.Direction)
    requires KeysHold(kdf, session, p)
    ensures KeysHold(kdf, session, p.(ex := X.CryptoInfo(p.ex, dir).0))
  {
    if X.Answers(p.ex) {
      SequenceRewritten(p.ex.cipher, p.ex.Key(dir).info, X.RecordSequence(p.ex, dir), 0);
    }
  }

  lemma BlobActionKeeps(kdf: Kdf, session: Session, p: Party, peer: Party, inbound: seq<byte>, a: Action)
    requires (a.Ask? || a.Install?) && KeysHold(kdf, session, p) && Legal(session, p, peer, inbound, a)
    ensures KeysHold(kdf, session, Acted(kdf, p, peer, inbound, a))
  {
    AskKeeps(kdf, session, p, a.dir);
    SameKeysHold(kdf, session, p.(ex := X.CryptoInfo(p.ex, a.dir).0), Acted(kdf, p, peer, inbound, a));
  }

  predicate LeavesKeys(a: Action) {
    a.Take? || a.Deliver? || a.Backlog? || a.KernelRecord? || a.Release?
  }

  lemma OtherActionKeeps(kdf: Kdf, session: Session, p: Party, peer: Party, inbound: seq<byte>, a: Action)
    requires LeavesKeys(a) && KeysHold(kdf, session, p)
    ensures KeysHold(kdf, session, Acted(kdf, p, peer, inbound, a))
  {
    SameKeysHold(kdf, session, p, Acted(kdf, p, peer, inbound, a));
  }

  lemma ActionKeeps(kdf: Kdf, session: Session, p: Party, peer: Party, inbound: seq<byte>, a: Action)
    requires session.Valid() && KeysHold(kdf, session, p) && Legal(session, p, peer, inbound, a)
    ensures KeysHold(kdf, session, Acted(kdf, p, peer, inbound, a))
  {
    if a.Step? {
      StepKeeps(kdf, session, p, peer, inbound, a);
    } else if a.KeyLine? {
      LineKeeps(kdf, session, p, peer, inbound, a);
    } else if a.NextKey? {
      TurnKeeps(kdf, session, p, peer, inbound, a);
    } else if a.Ask? || a.Install? {
      BlobActionKeeps(kdf, session, p, peer, inbound, a);
    } else {
      OtherActionKeeps(kdf, session, p, peer, inbound, a);
    }
  }
}
