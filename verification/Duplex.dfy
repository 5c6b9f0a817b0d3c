/** A server and a client, each an exchange with OpenSSL under it, joined by two first-in first-out wires, and
    the kernels that take over from them. The rules say what OpenSSL and a caller may do at each moment; the
    exchange's own calls are those of module Exchange. */
module Duplex {
  import opened Bytes
  import opened Records
  import opened KeyLog
  import opened KeyChain
  import X = Exchange

  /** What the two sides of one TLS connection agree on. */
  datatype Session = Session(clientSecret: seq<byte>, serverSecret: seq<byte>, cipher: Cipher) {
    ghost predicate Valid() {
      0 < |clientSecret| <= SECRET_MAX && 0 < |serverSecret| <= SECRET_MAX && cipher != NoCipher
    }

    function Secret(slot: Slot): seq<byte> {
      if slot.ClientSlot? then clientSecret else serverSecret
    }
  }

  /** One direction of one side: the (epoch, sequence) pairs a record was protected with so far, and where
      the kernel stands once a blob was installed. Epoch 0 is the key of the handshake. */
  datatype Ledger = Ledger(used: seq<(nat, nat)>, installed: bool, epoch: nat, next: nat) {
    /** OpenSSL used the sequence numbers from..to under the first key. */
    function Spent(from: nat, to: nat): Ledger {
      this.(used := used + if from <= to then seq(to - from, i => (0, from + i)) else [])
    }
  }

  /** One side: the exchange, the offset just past its Finished in what it writes, how many octets its OpenSSL
      has read, how often each direction was updated, and the two ledgers. */
  datatype Party = Party(ex: X.Ex, finished: Option<nat>, read: nat, txTurns: nat, rxTurns: nat, tx: Ledger, rx: Ledger) {
    /** Everything OpenSSL wrote. */
    function Stream(): seq<byte> {
      ex.taken + ex.output
    }

    function Turns(dir: X.Direction): nat {
      if dir == X.Tx then txTurns else rxTurns
    }

    function LedgerOf(dir: X.Direction): Ledger {
      if dir == X.Tx then tx else rx
    }

    function WithLedger(dir: X.Direction, l: Ledger): Party {
      if dir == X.Tx then this.(tx := l) else this.(rx := l)
    }
  }

  /** The records this side wrote under the application keys: those that end past its Finished. */
  function AppWritten(p: Party): nat {
    match p.finished
    case None => 0
    case Some(f) => CountIn(Ends(p.Stream()), f, |p.Stream()|)
  }

  /** The records of the peer this side's OpenSSL read whole under the application keys. */
  function AppRead(p: Party, peer: Party): nat {
    match peer.finished
    case None => 0
    case Some(f) => CountIn(Ends(p.ex.fed), f, p.read)
  }

  // ---- what may happen ----

  datatype Action =
    | Take(cap: nat)                                            // the caller sends what it takes
    | Deliver(n: nat)                                           // n octets arrive and are fed
    | Step(ssl: X.Ssl, finishes: bool)                          // finishes: the last record written is Finished
    | Backlog(ssl: X.Ssl)
    | KeyLine(tag: string, random: seq<byte>, secret: seq<byte>)
    | NextKey(dir: X.Direction)
    | Ask(dir: X.Direction)
    | Install(dir: X.Direction)                                 // a blob is asked for and given to the kernel
    | KernelRecord(dir: X.Direction)                            // the kernel protects or opens one record
    | Release

  /** OpenSSL's rules for one handshake call (sections 4.4.4 and 4.6.1 of RFC 8446): it appends whole
      records, reads whole or broken-off records but not past the peer's Finished, writes nothing between a
      server's Finished and reading the client's, and ends a client's handshake by writing its Finished
      after reading the server's. The call that completes finds suite and secrets in place. */
  ghost predicate HandshakeLegal(session: Session, p: Party, peer: Party, ssl: X.Ssl, finishes: bool) {
    var reached := p.read + ssl.eaten;
    && ssl.eaten <= |p.ex.input|
    && (peer.finished.Some? ==> reached <= peer.finished.value)
    && Whole(p.Stream() + ssl.wrote)
    && (finishes ==> p.finished.None? && ssl.wrote != [])
    && (ssl.outcome == X.Complete ==>
          && peer.finished.Some? && reached >= peer.finished.value
          && ssl.cipher == session.cipher
          && p.ex.keys.client.secret.length > 0 && p.ex.keys.server.secret.length > 0)
    && if p.ex.isServer then
         && (p.finished.None? ==> ssl.outcome != X.Complete)
         && (p.finished.Some? && ssl.outcome != X.Complete ==> ssl.wrote == [])
       else
         finishes == (ssl.outcome == X.Complete)
  }

  /** What one side may do next. The caller keeps the library's rules: backlog is done with before the
      receiving blob is installed, nothing is written through OpenSSL after the sending one, every blob is
      installed once, and the SSL goes when both directions are the kernel's. */
  ghost predicate Legal(session: Session, p: Party, peer: Party, inbound: seq<byte>, a: Action) {
    match a
    case Take(cap) => true
    case Deliver(n) => p.ex.live && n <= |inbound| && n < TWO_31 && |p.ex.fed| + n < TWO_64 - 1
    case Step(ssl, finishes) => p.ex.live && !p.ex.done ==> HandshakeLegal(session, p, peer, ssl, finishes)
    case Backlog(ssl) => p.ex.live && p.ex.done ==>
      && ssl.eaten <= |p.ex.input| && Whole(p.Stream() + ssl.wrote)
      && (p.tx.installed ==> ssl.wrote == [])
      && (p.rx.installed ==> ssl.eaten == 0)
    case KeyLine(tag, random, secret) =>
      && p.ex.live && !p.ex.done && ' ' !in tag
      && (tag == CLIENT_LABEL ==> secret == session.clientSecret)
      && (tag == SERVER_LABEL ==> secret == session.serverSecret)
    case NextKey(dir) => p.ex.done
    case Ask(dir) => true
    case Install(dir) =>
      && p.ex.Valid() && X.CryptoInfo(p.ex, dir).1.Some?
      && (p.LedgerOf(dir).installed ==> p.LedgerOf(dir).epoch < p.Turns(dir))
    case KernelRecord(dir) => p.LedgerOf(dir).installed
    case Release => p.tx.installed && p.rx.installed
  }

  /** OpenSSL's own account after a call in which it wrote and read. */
  function Booked(p: Party, peer: Party, after: Party): Party {
    after.(tx := p.tx.Spent(AppWritten(p), AppWritten(after)), rx := p.rx.Spent(AppRead(p, peer), AppRead(after, peer)))
  }

  function Acted(kdf: Kdf, p: Party, peer: Party, inbound: seq<byte>, a: Action): (r: Party)
    requires p.ex.Valid()
    ensures r.ex.Valid()
  {
    match a
    case Take(cap) => p.(ex := X.Take(p.ex, cap).0)
    case Deliver(n) => p.(ex := X.Feed(p.ex, inbound[..Min(n, |inbound|)]).0)
    case Step(ssl, finishes) =>
      if !p.ex.live || p.ex.done then p
      else
        var ex := X.Step(kdf, p.ex, ssl).0;
        var after := p.(ex := ex, read := p.read + Min(ssl.eaten, |p.ex.input|),
                        finished := if finishes then Some(|ex.taken + ex.output|) else p.finished);
        Booked(p, peer, after)
    case Backlog(ssl) =>
      if !p.ex.live || !p.ex.done then p
      else Booked(p, peer, p.(ex := X.Backlog(p.ex, ssl), read := p.read + Min(ssl.eaten, |p.ex.input|)))
    case KeyLine(tag, random, secret) => p.(ex := X.KeyLine(p.ex, Print(tag, random, secret)))
    case NextKey(dir) =>
      var turned := p.(ex := X.NextKey(kdf, p.ex, dir).0);
      if dir == X.Tx then turned.(txTurns := p.txTurns + 1) else turned.(rxTurns := p.rxTurns + 1)
    case Ask(dir) => p.(ex := X.CryptoInfo(p.ex, dir).0)
    case Install(dir) =>
      var (ex, blob) := X.CryptoInfo(p.ex, dir);
      if blob.None? || |blob.value| < SEQUENCE then p
      else p.(ex := ex).WithLedger(dir, p.LedgerOf(dir).(installed := true, epoch := p.Turns(dir),
                                                       next := KernelSequence(blob.value)))
    case KernelRecord(dir) =>
      var l := p.LedgerOf(dir);
      p.WithLedger(dir, l.(used := l.used + [(l.epoch, l.next)], next := l.next + 1))
    case Release => p.(ex := X.Release(p.ex))
  }

  /** What the wire away from a side gains, and what the wire to it loses. */
  function Outbound(p: Party, out: seq<byte>, a: Action): seq<byte> {
    if a.Take? then out + X.Take(p.ex, a.cap).1 else out
  }

  function Inbound(inbound: seq<byte>, a: Action): seq<byte> {
    if a.Deliver? then inbound[Min(a.n, |inbound|)..] else inbound
  }

  // ---- the two of them ----

  /** Both sides and the octets under way from the server (down) and from the client (up). */
  datatype World = World(server: Party, client: Party, down: seq<byte>, up: seq<byte>)

  datatype Move = Move(byServer: bool, action: Action)

  function Fresh(isServer: bool, absent: X.NullPending): Party {
    Party(X.Opened(isServer, absent), None, 0, 0, 0, Ledger([], false, 0, 0), Ledger([], false, 0, 0))
  }

  function Start(s: X.NullPending, c: X.NullPending): World {
    World(Fresh(true, s), Fresh(false, c), [], [])
  }

  ghost predicate Allowed(session: Session, w: World, m: Move) {
    if m.byServer then Legal(session, w.server, w.client, w.up, m.action)
    else Legal(session, w.client, w.server, w.down, m.action)
  }

  function Moved(kdf: Kdf, w: World, m: Move): (r: World)
    requires w.server.ex.Valid() && w.client.ex.Valid()
    ensures r.server.ex.Valid() && r.client.ex.Valid()
  {
    if m.byServer then
      World(Acted(kdf, w.server, w.client, w.up, m.action), w.client,
            Outbound(w.server, w.down, m.action), Inbound(w.up, m.action))
    else
      World(w.server, Acted(kdf, w.client, w.server, w.down, m.action),
            Inbound(w.down, m.action), Outbound(w.client, w.up, m.action))
  }

  ghost predicate LegalMove(kdf: Kdf, session: Session, w: World, m: Move, w': World) {
    && w.server.ex.Valid() && w.client.ex.Valid()
    && Allowed(session, w, m) && w' == Moved(kdf, w, m)
  }

  /** The worlds a run goes through and the moves between them. */
  datatype Run = Run(worlds: seq<World>, moves: seq<Move>)

  ghost predicate LegalRun(kdf: Kdf, session: Session, run: Run) {
    && |run.worlds| == |run.moves| + 1
    && (exists s: X.NullPending, c: X.NullPending :: run.worlds[0] == Start(s, c))
    && forall i {:trigger run.moves[i]} :: 0 <= i < |run.moves| ==>
         LegalMove(kdf, session, run.worlds[i], run.moves[i], run.worlds[i + 1])
  }

  /** A world some legal run leads to. */
  ghost predicate Reachable(kdf: Kdf, session: Session, w: World) {
    exists run: Run :: LegalRun(kdf, session, run) && w == run.worlds[|run.moves|]
  }
}
