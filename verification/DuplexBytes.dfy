/** Where every octet and both boundaries are, in every world a legal run leads to. */
module DuplexBytes {
  import opened Bytes
  import opened Records
  import opened KeyLog
  import opened KeyChain
  import opened Duplex
  import X = Exchange

  /** What a side wrote stops between records, and its Finished is in it. */
  ghost predicate Writes(s: Party) {
    Whole(s.Stream()) && (s.finished.Some? ==> s.finished.value <= |s.Stream()|)
  }

  /** What a side has read is what it was fed and does not wait, as long as it has its buffers. */
  ghost predicate Reads(r: Party) {
    && |r.ex.input| <= |r.ex.fed| < TWO_64 - 1
    && r.read <= |r.ex.fed|
    && (r.ex.live ==> r.read == |r.ex.fed| - |r.ex.input|)
  }

  /** Before its handshake is over a side has not read past the peer's Finished, and when it is over it had
      read exactly up to it. */
  ghost predicate StopsAt(r: Party, finished: Option<nat>) {
    && (!r.ex.done && finished.Some? ==> r.read <= finished.value)
    && (r.ex.done ==> finished == Some(r.ex.rxAtDone) && r.ex.rxAtDone <= r.read)
  }

  /** From sender to receiver nothing is lost, added or overtaken on the wire. */
  ghost predicate Link(s: Party, r: Party, wire: seq<byte>) {
    r.ex.fed + wire == s.ex.taken && Writes(s) && Reads(r) && StopsAt(r, s.finished)
  }

  ghost predicate Own(p: Party) {
    && p.ex.Valid()
    && (p.ex.done ==> p.finished == Some(p.ex.txAtDone) && p.ex.server == p.ex.isServer)
    && (!p.ex.live ==> p.ex.done && p.ex.input == [] && p.ex.output == [])
    && (p.tx.installed ==> p.ex.done && p.ex.output == [])
  }

  /** A server that waits for the client's Finished has written nothing past its own; a client has written
      its Finished exactly when it is done. */
  ghost predicate Roles(server: Party, client: Party) {
    && server.ex.isServer && !client.ex.isServer
    && (server.finished.Some? && !server.ex.done ==> |server.Stream()| == server.finished.value)
    && (client.finished.Some? <==> client.ex.done)
  }

  ghost predicate InRoles(p: Party, peer: Party) {
    if p.ex.isServer then Roles(p, peer) else Roles(peer, p)
  }

  ghost predicate Paired(p: Party, peer: Party, out: seq<byte>, inbound: seq<byte>) {
    Link(p, peer, out) && Link(peer, p, inbound) && Own(p) && Own(peer) && InRoles(p, peer)
  }

  ghost predicate BytesHold(w: World) {
    Paired(w.server, w.client, w.down, w.up) && w.server.ex.isServer
  }

  // ---- what a change of one side keeps ----

  /** The sender moved octets from its buffer onto the wire, or did nothing. */
  lemma TakenKeeps(p: Party, q: Party, peer: Party, out: seq<byte>, inbound: seq<byte>, n: nat)
    requires Paired(p, peer, out, inbound) && n <= |p.ex.output|
    requires q == p.(ex := p.ex.(output := p.ex.output[n..], taken := p.ex.taken + p.ex.output[..n]))
    ensures Paired(q, peer, out + p.ex.output[..n], inbound) && q.Stream() == p.Stream()
  {
    var front, rest := p.ex.output[..n], p.ex.output[n..];
    assert p.ex.output == front + rest;
    Regroup(p.ex.taken, front, rest);
    Regroup(peer.ex.fed, out, front);
  }

  lemma Regroup(a: seq<byte>, b: seq<byte>, c: seq<byte>)
    ensures a + (b + c) == a + b + c
  {
  }

  /** The receiver was fed the front of the wire. */
  lemma FedKeeps(p: Party, q: Party, peer: Party, out: seq<byte>, inbound: seq<byte>, n: nat)
    requires Paired(p, peer, out, inbound) && p.ex.live && n <= |inbound| && |p.ex.fed| + n < TWO_64 - 1
    requires q == p.(ex := p.ex.(input := p.ex.input + inbound[..n], fed := p.ex.fed + inbound[..n]))
    ensures Paired(q, peer, out, inbound[n..])
  {
    assert inbound == inbound[..n] + inbound[n..];
    assert q.ex.fed + inbound[n..] == peer.ex.taken;
    assert q.Stream() == p.Stream();
  }

  /** Nothing changed but keys, updates and ledgers. */
  lemma QuietKeeps(p: Party, q: Party, peer: Party, out: seq<byte>, inbound: seq<byte>)
    requires Paired(p, peer, out, inbound)
    requires q.ex == p.ex.(keys := q.ex.keys) && q.ex.Valid() && q.finished == p.finished && q.read == p.read
    requires q.tx.installed ==> q.ex.done && q.ex.output == []
    ensures Paired(q, peer, out, inbound)
  {
    assert q.Stream() == p.Stream();
  }

  /** OpenSSL read from the front of the buffer and wrote whole records, and nothing was settled by it. */
  lemma MovedKeeps(p: Party, q: Party, peer: Party, out: seq<byte>, inbound: seq<byte>, n: nat, wrote: seq<byte>)
    requires Paired(p, peer, out, inbound) && p.ex.live && p.ex.done && n <= |p.ex.input|
    requires Whole(p.Stream() + wrote) && (p.tx.installed ==> wrote == [])
    requires q.ex == p.ex.(input := p.ex.input[n..], output := p.ex.output + wrote)
    requires q.read == p.read + n && q.finished == p.finished && q.tx.installed == p.tx.installed
    ensures Paired(q, peer, out, inbound)
  {
    assert q.Stream() == p.Stream() + wrote;
    assert Writes(q) && Reads(q);
    assert StopsAt(q, peer.finished) && StopsAt(peer, q.finished);
  }

  /** The buffers are gone; nothing was left to send. */
  lemma ReleasedKeeps(p: Party, q: Party, peer: Party, out: seq<byte>, inbound: seq<byte>)
    requires Paired(p, peer, out, inbound) && p.tx.installed
    requires q == p.(ex := p.ex.(live := false, input := [], output := []))
    ensures Paired(q, peer, out, inbound)
  {
    assert q.Stream() == p.Stream();
  }

  // ---- the handshake ----

  /** What a handshake call does to the octets. */
  lemma HandshakeEffect(kdf: Kdf, x: X.Ex, ssl: X.Ssl)
    requires x.Valid() && x.live && !x.done && ssl.eaten <= |x.input|
    requires |x.input| <= |x.fed| < TWO_64
    ensures var y := X.Step(kdf, x, ssl).0;
            && y == x.(input := x.input[ssl.eaten..], output := x.output + ssl.wrote, done := y.done,
                       cipher := y.cipher, keys := y.keys, txAtDone := y.txAtDone, rxAtDone := y.rxAtDone,
                       server := y.server, alpn := y.alpn)
            && (y.done ==> && ssl.outcome == X.Complete && y.server == x.isServer
                           && y.rxAtDone == |y.fed| - |y.input|
                           && y.txAtDone == |x.taken| + if x.isServer then 0 else |y.output|)
  {
    assert X.Moved(x, ssl).Consumed() == |x.fed| - |x.input[ssl.eaten..]|;
  }

  /** The causal argument. A server's handshake ends after it read the client's Finished, which the client
      wrote after it had read the server's: so the server's Finished was taken long ago, and since it wrote
      nothing after that, it is exactly what was taken. */
  lemma ServersFinishedWasTaken(server: Party, client: Party, down: seq<byte>, up: seq<byte>)
    requires Paired(server, client, down, up) && server.ex.isServer && !server.ex.done
    requires server.finished.Some? && client.finished.Some?
    ensures |server.ex.taken| == server.finished.value
  {
    assert client.ex.done;
    assert client.ex.rxAtDone <= client.read <= |client.ex.fed| <= |server.ex.taken|;
  }

  /** The call that ends a handshake sets both boundaries to the two Finished records. */
  lemma CompletingSetsTheBoundaries(kdf: Kdf, session: Session, p: Party, peer: Party, out: seq<byte>, inbound: seq<byte>,
                                    ssl: X.Ssl, finishes: bool)
    requires Paired(p, peer, out, inbound) && Legal(session, p, peer, inbound, Step(ssl, finishes))
    requires p.ex.live && !p.ex.done && X.Step(kdf, p.ex, ssl).0.done
    ensures var q := Acted(kdf, p, peer, inbound, Step(ssl, finishes));
            q.finished == Some(q.ex.txAtDone) && peer.finished == Some(q.ex.rxAtDone) && q.ex.rxAtDone == q.read
  {
    HandshakeEffect(kdf, p.ex, ssl);
    CompletingOffsets(session, p, peer, out, inbound, ssl, finishes);
  }

  /** Where a call that ends a handshake leaves the two streams. */
  lemma CompletingOffsets(session: Session, p: Party, peer: Party, out: seq<byte>, inbound: seq<byte>,
                          ssl: X.Ssl, finishes: bool)
    requires Paired(p, peer, out, inbound) && HandshakeLegal(session, p, peer, ssl, finishes)
    requires p.ex.live && !p.ex.done && ssl.outcome == X.Complete
    ensures peer.finished == Some(p.read + ssl.eaten) && p.read + |p.ex.input| == |p.ex.fed|
    ensures finishes == !p.ex.isServer
    ensures p.ex.isServer ==> p.finished == Some(|p.ex.taken|)
  {
    if p.ex.isServer {
      ServersFinishedWasTaken(p, peer, out, inbound);
    }
  }

  /** A handshake call, seen from the octets only. */
  lemma ShakenKeeps(session: Session, p: Party, q: Party, peer: Party, out: seq<byte>, inbound: seq<byte>,
                    ssl: X.Ssl, finishes: bool)
    requires Paired(p, peer, out, inbound) && p.ex.live && !p.ex.done
    requires HandshakeLegal(session, p, peer, ssl, finishes)
    requires q.ex == p.ex.(input := p.ex.input[ssl.eaten..], output := p.ex.output + ssl.wrote, done := q.ex.done,
                           cipher := q.ex.cipher, keys := q.ex.keys, txAtDone := q.ex.txAtDone,
                           rxAtDone := q.ex.rxAtDone, server := q.ex.server, alpn := q.ex.alpn)
    requires q.ex.Valid() && q.read == p.read + ssl.eaten && q.tx.installed == p.tx.installed
    requires q.finished == (if finishes then Some(|q.Stream()|) else p.finished)
    requires q.ex.done == (ssl.outcome == X.Complete)
    requires q.ex.done ==> && q.ex.server == p.ex.isServer && q.finished == Some(q.ex.txAtDone)
                           && peer.finished == Some(q.ex.rxAtDone) && q.ex.rxAtDone == q.read
    ensures Paired(q, peer, out, inbound)
  {
    assert q.Stream() == p.Stream() + ssl.wrote;
    assert Writes(q) && Reads(q);
    assert StopsAt(q, peer.finished);
    assert StopsAt(peer, q.finished);
    assert InRoles(q, peer);
  }

  lemma StepKeeps(kdf: Kdf, session: Session, p: Party, peer: Party, out: seq<byte>, inbound: seq<byte>, a: Action)
    requires a.Step? && Paired(p, peer, out, inbound) && Legal(session, p, peer, inbound, a)
    requires X.Step(kdf, p.ex, a.ssl).0.done == (p.ex.done || (p.ex.live && a.ssl.outcome == X.Complete))
    ensures Paired(Acted(kdf, p, peer, inbound, a), peer, out, inbound)
  {
    var q := Acted(kdf, p, peer, inbound, a);
    if p.ex.live && !p.ex.done {
      HandshakeEffect(kdf, p.ex, a.ssl);
      if q.ex.done {
        CompletingSetsTheBoundaries(kdf, session, p, peer, out, inbound, a.ssl, a.finishes);
      }
      ShakenKeeps(session, p, q, peer, out, inbound, a.ssl, a.finishes);
    } else {
      QuietKeeps(p, q, peer, out, inbound);
    }
  }

  // ---- the other actions ----

  lemma TakeKeeps(kdf: Kdf, p: Party, peer: Party, out: seq<byte>, inbound: seq<byte>, a: Action)
    requires a.Take? && Paired(p, peer, out, inbound)
    ensures Paired(Acted(kdf, p, peer, inbound, a), peer, Outbound(p, out, a), inbound)
    ensures Acted(kdf, p, peer, inbound, a).Stream() == p.Stream()
  {
    TakenKeeps(p, Acted(kdf, p, peer, inbound, a), peer, out, inbound, X.Takes(p.ex, a.cap));
  }

  lemma DeliverKeeps(kdf: Kdf, session: Session, p: Party, peer: Party, out: seq<byte>, inbound: seq<byte>, a: Action)
    requires a.Deliver? && Paired(p, peer, out, inbound) && Legal(session, p, peer, inbound, a)
    ensures Paired(Acted(kdf, p, peer, inbound, a), peer, out, Inbound(inbound, a))
    ensures Acted(kdf, p, peer, inbound, a).ex.fed == p.ex.fed + inbound[..a.n]
  {
    DeliverEffect(p.ex, inbound[..a.n]);
    FedKeeps(p, Acted(kdf, p, peer, inbound, a), peer, out, inbound, a.n);
  }

  lemma DeliverEffect(x: X.Ex, bytes: seq<byte>)
    requires x.live && |bytes| < TWO_31
    ensures X.Feed(x, bytes).0 == x.(input := x.input + bytes, fed := x.fed + bytes)
  {
    assert bytes[..|bytes|] == bytes;
    assert x.input + [] == x.input && x.fed + [] == x.fed;
  }

  lemma BacklogKeeps(kdf: Kdf, session: Session, p: Party, peer: Party, out: seq<byte>, inbound: seq<byte>, a: Action)
    requires a.Backlog? && Paired(p, peer, out, inbound) && Legal(session, p, peer, inbound, a)
    ensures Paired(Acted(kdf, p, peer, inbound, a), peer, out, inbound)
  {
    if p.ex.live && p.ex.done {
      MovedKeeps(p, Acted(kdf, p, peer, inbound, a), peer, out, inbound, a.ssl.eaten, a.ssl.wrote);
    }
  }

  lemma InstallEffect(x: X.Ex, dir: X.Direction)
    requires x.Valid()
    ensures var (y, b) := X.CryptoInfo(x, dir);
            && y == x.(keys := y.keys)
            && (b.Some? ==> x.done && !x.Overflowed() && |b.value| >= SEQUENCE && (x.live ==> x.output == []))
  {
  }

  predicate Quiet(a: Action) {
    a.KeyLine? || a.NextKey? || a.Ask? || a.Install? || a.KernelRecord?
  }

  lemma QuietActionKeeps(kdf: Kdf, session: Session, p: Party, peer: Party, out: seq<byte>, inbound: seq<byte>, a: Action)
    requires Quiet(a) && Paired(p, peer, out, inbound) && Legal(session, p, peer, inbound, a)
    ensures Paired(Acted(kdf, p, peer, inbound, a), peer, out, inbound)
  {
    QuietEffect(kdf, session, p, peer, inbound, a);
    QuietKeeps(p, Acted(kdf, p, peer, inbound, a), peer, out, inbound);
  }

  lemma QuietEffect(kdf: Kdf, session: Session, p: Party, peer: Party, inbound: seq<byte>, a: Action)
    requires Quiet(a) && Own(p) && Legal(session, p, peer, inbound, a)
    ensures var q := Acted(kdf, p, peer, inbound, a);
            && q.ex == p.ex.(keys := q.ex.keys) && q.finished == p.finished && q.read == p.read
            && (q.tx.installed ==> q.ex.done && q.ex.output == [])
  {
    match a {
      case KeyLine(tag, random, secret) =>
      case NextKey(dir) =>
      case Ask(dir) => InstallEffect(p.ex, dir);
      case Install(dir) => InstallEffect(p.ex, dir);
      case KernelRecord(dir) =>
    }
  }

  lemma ReleaseKeeps(kdf: Kdf, session: Session, p: Party, peer: Party, out: seq<byte>, inbound: seq<byte>, a: Action)
    requires a.Release? && Paired(p, peer, out, inbound) && Legal(session, p, peer, inbound, a)
    ensures Paired(Acted(kdf, p, peer, inbound, a), peer, out, inbound)
  {
    ReleasedKeeps(p, p.(ex := p.ex.(live := false, input := [], output := [])), peer, out, inbound);
    QuietKeeps(p, p, peer, out, inbound);
  }

  lemma ActionKeeps(kdf: Kdf, session: Session, p: Party, peer: Party, out: seq<byte>, inbound: seq<byte>, a: Action)
    requires Paired(p, peer, out, inbound) && Legal(session, p, peer, inbound, a)
    requires a.Step? ==> X.Step(kdf, p.ex, a.ssl).0.done == (p.ex.done || (p.ex.live && a.ssl.outcome == X.Complete))
    ensures Paired(Acted(kdf, p, peer, inbound, a), peer, Outbound(p, out, a), Inbound(inbound, a))
  {
    if a.Take? {
      TakeKeeps(kdf, p, peer, out, inbound, a);
    } else if a.Deliver? {
      DeliverKeeps(kdf, session, p, peer, out, inbound, a);
    } else if a.Step? {
      StepKeeps(kdf, session, p, peer, out, inbound, a);
    } else if a.Backlog? {
      BacklogKeeps(kdf, session, p, peer, out, inbound, a);
    } else if a.Release? {
      ReleaseKeeps(kdf, session, p, peer, out, inbound, a);
    } else {
      QuietActionKeeps(kdf, session, p, peer, out, inbound, a);
    }
  }
}
