/** No (epoch, sequence) pair of one direction protects two records, in every world a legal run leads to: the
    first key's numbers are OpenSSL's up to some k, the kernel goes on exactly at k, and every later key
    starts at 0. */
module DuplexNonces {
  import opened Bytes
  import opened Records
  import opened KeyChain
  import opened Duplex
  import opened DuplexBytes
  import DuplexKeys
  import ExchangeLaws
  import X = Exchange

  ghost predicate Distinct(used: seq<(nat, nat)>) {
    forall i, j :: 0 <= i < j < |used| ==> used[i] != used[j]
  }

  /** The first n sequence numbers under the first key. */
  function Firsts(n: nat): (s: seq<(nat, nat)>)
    ensures |s| == n
  {
    seq(n, i => (0, i))
  }

  ghost predicate Before(u: (nat, nat), epoch: nat, next: nat) {
    u.0 < epoch || (u.0 == epoch && u.1 < next)
  }

  /** Until a blob is installed OpenSSL has used the first `count` numbers and no others; from then on
      everything used comes before where the kernel stands. */
  ghost predicate LedgerHolds(l: Ledger, turns: nat, count: nat) {
    && Distinct(l.used)
    && if l.installed then
         l.epoch <= turns && forall i :: 0 <= i < |l.used| ==> Before(l.used[i], l.epoch, l.next)
       else
         l.used == Firsts(count)
  }

  ghost predicate NoncesHold(p: Party, peer: Party) {
    && LedgerHolds(p.tx, p.txTurns, AppWritten(p))
    && LedgerHolds(p.rx, p.rxTurns, AppRead(p, peer))
    && (p.rx.installed ==> p.ex.done)
    && (!p.ex.live ==> p.tx.installed && p.rx.installed)
  }

  // ---- the two counts ----

  /** Unless too much was taken to count, the sending sequence is the number of records OpenSSL wrote under the
      application keys that were taken. */
  lemma SendingSequence(p: Party, peer: Party, out: seq<byte>, inbound: seq<byte>)
    requires Paired(p, peer, out, inbound) && p.ex.done
    requires |Ends(p.ex.taken)| <= CAPACITY && !p.ex.Key(X.Tx).rekeyed
    ensures X.RecordSequence(p.ex, X.Tx) == CountIn(Ends(p.Stream()), p.finished.value, |p.ex.taken|)
    ensures p.ex.output == [] ==> X.RecordSequence(p.ex, X.Tx) == AppWritten(p)
  {
    assert Capped(Ends(p.ex.taken)) == Ends(p.ex.taken);
    CountLooksBackOnly(p.ex.taken, p.ex.output, p.finished.value, |p.ex.taken|);
  }

  /** The peer's application records in what a side was fed. */
  function AppFed(p: Party, peer: Party): nat {
    match peer.finished
    case None => 0
    case Some(f) => CountIn(Ends(p.ex.fed), f, |p.ex.fed|)
  }

  /** Unless too much was fed to count, the receiving sequence is the number of the peer's application records
      OpenSSL read whole; once the buffers are gone, of all that were fed. */
  lemma ReceivingSequence(p: Party, peer: Party, out: seq<byte>, inbound: seq<byte>)
    requires Paired(p, peer, out, inbound) && p.ex.done
    requires |Ends(p.ex.fed)| <= CAPACITY && !p.ex.Key(X.Rx).rekeyed
    ensures X.RecordSequence(p.ex, X.Rx) == if p.ex.live then AppRead(p, peer) else AppFed(p, peer)
  {
    assert Capped(Ends(p.ex.fed)) == Ends(p.ex.fed);
    if p.ex.live {
      assert p.ex.Consumed() == p.read;
    } else {
      AbsentBuffer(p.ex);
    }
  }

  /** Either answer BIO_pending gives for an absent buffer counts everything that was fed. */
  lemma AbsentBuffer(x: X.Ex)
    requires !x.live && |x.fed| < TWO_64 - 1
    ensures CountIn(Ends(x.fed), x.rxAtDone, x.Consumed()) == CountIn(Ends(x.fed), x.rxAtDone, |x.fed|)
  {
    var ends := Ends(x.fed);
    assert x.Consumed() == |x.fed| - x.absent;
    EndsRise(x.fed, 0);
    assert forall i :: 0 <= i < |ends| ==> ends[i] in ends;
    CountSaturates(ends, x.rxAtDone, |x.fed|, x.Consumed());
  }

  lemma {:induction false} EmptyRange(ends: seq<nat>, after: nat, upto: nat)
    requires upto <= after
    ensures CountIn(ends, after, upto) == 0
  {
    CountNone(ends, after, upto);
  }

  /** A receiver that has not read past the sender's Finished has read no application record. */
  lemma NothingReadYet(p: Party, peer: Party)
    requires peer.finished.Some? ==> p.read <= peer.finished.value
    ensures AppRead(p, peer) == 0
  {
    if peer.finished.Some? {
      EmptyRange(Ends(p.ex.fed), peer.finished.value, p.read);
    }
  }

  lemma WrittenGrows(p: Party, q: Party, more: seq<byte>)
    requires q.Stream() == p.Stream() + more && q.finished == p.finished
    ensures AppWritten(p) <= AppWritten(q)
    ensures more == [] ==> AppWritten(p) == AppWritten(q)
  {
    var s := p.Stream();
    if p.finished.Some? {
      EndsAppend(s, more, 0);
      var f := p.finished.value;
      CountConcat(Ends(s), EndsFrom(s + more, Tail(s)), f, |s + more|);
      EndsRise(s, 0);
      assert forall i :: 0 <= i < |Ends(s)| ==> Ends(s)[i] in Ends(s);
      CountSaturates(Ends(s), f, |s|, |s + more|);
    }
    if more == [] {
      assert s + more == s;
    }
  }

  lemma ReadGrows(p: Party, q: Party, peer: Party)
    requires q.ex.fed == p.ex.fed && p.read <= q.read
    ensures AppRead(p, peer) <= AppRead(q, peer)
  {
    if peer.finished.Some? {
      var ends, f := Ends(p.ex.fed), peer.finished.value;
      if p.read <= f {
        EmptyRange(ends, f, p.read);
      } else {
        CountAdds(ends, f, p.read, q.read);
      }
    }
  }

  lemma FeedingReadsNothing(p: Party, q: Party, peer: Party, more: seq<byte>)
    requires q.ex.fed == p.ex.fed + more && q.read == p.read <= |p.ex.fed|
    ensures AppRead(q, peer) == AppRead(p, peer)
  {
    if peer.finished.Some? {
      CountLooksBackOnly(p.ex.fed, more, peer.finished.value, p.read);
    }
  }

  // ---- ledgers ----

  lemma SpendingHolds(l: Ledger, turns: nat, from: nat, to: nat)
    requires LedgerHolds(l, turns, from) && from <= to && (l.installed ==> from == to)
    ensures LedgerHolds(l.Spent(from, to), turns, to)
  {
    if l.installed {
      assert l.Spent(from, to).used == l.used;
    } else {
      assert l.Spent(from, to).used == Firsts(to);
    }
  }

  lemma KernelHolds(l: Ledger, turns: nat, count: nat)
    requires LedgerHolds(l, turns, count) && l.installed
    ensures LedgerHolds(l.(used := l.used + [(l.epoch, l.next)], next := l.next + 1), turns, count)
  {
  }

  /** Installing the first key's blob is safe because its sequence is the count; a later key's, because that
      key protected nothing yet. */
  lemma InstallingHolds(l: Ledger, turns: nat, count: nat, next: nat)
    requires LedgerHolds(l, turns, count)
    requires if l.installed then l.epoch < turns else turns == 0 ==> next == count
    ensures LedgerHolds(l.(installed := true, epoch := turns, next := next), turns, count)
  {
  }

  // ---- one action at a time ----

  lemma StepKeeps(kdf: Kdf, session: Session, p: Party, peer: Party, out: seq<byte>, inbound: seq<byte>, a: Action)
    requires a.Step? && Paired(p, peer, out, inbound) && NoncesHold(p, peer) && Legal(session, p, peer, inbound, a)
    ensures NoncesHold(Acted(kdf, p, peer, inbound, a), peer)
  {
    if p.ex.live && !p.ex.done {
      var q := Acted(kdf, p, peer, inbound, a);
      HandshakeEffect(kdf, p.ex, a.ssl);
      assert q.Stream() == p.Stream() + a.ssl.wrote;
      if a.finishes {
        EmptyRange(Ends(q.Stream()), |q.Stream()|, |q.Stream()|);
      } else {
        WrittenGrows(p, q, a.ssl.wrote);
      }
      NothingReadYet(p, peer);
      NothingReadYet(q, peer);
      SpendingHolds(p.tx, p.txTurns, AppWritten(p), AppWritten(q));
      SpendingHolds(p.rx, p.rxTurns, 0, 0);
    }
  }

  lemma BacklogKeeps(kdf: Kdf, session: Session, p: Party, peer: Party, out: seq<byte>, inbound: seq<byte>, a: Action)
    requires a.Backlog? && Paired(p, peer, out, inbound) && NoncesHold(p, peer) && Legal(session, p, peer, inbound, a)
    ensures NoncesHold(Acted(kdf, p, peer, inbound, a), peer)
  {
    if p.ex.live && p.ex.done {
      var q := Acted(kdf, p, peer, inbound, a);
      assert q.Stream() == p.Stream() + a.ssl.wrote;
      WrittenGrows(p, q, a.ssl.wrote);
      ReadGrows(p, q, peer);
      SpendingHolds(p.tx, p.txTurns, AppWritten(p), AppWritten(q));
      SpendingHolds(p.rx, p.rxTurns, AppRead(p, peer), AppRead(q, peer));
    }
  }

  /** The sequence a blob carries, as the kernel reads it: under the first key the count, later 0. */
  lemma InstalledNext(kdf: Kdf, session: Session, p: Party, peer: Party, out: seq<byte>, inbound: seq<byte>, dir: X.Direction)
    requires Paired(p, peer, out, inbound) && NoncesHold(p, peer) && DuplexKeys.KeysHold(kdf, session, p)
    requires Legal(session, p, peer, inbound, Install(dir))
    ensures var next := Acted(kdf, p, peer, inbound, Install(dir)).LedgerOf(dir).next;
            if p.Turns(dir) > 0 then next == 0
            else next == (if dir == X.Tx then AppWritten(p) else AppRead(p, peer)) <= CAPACITY
  {
    InstallEffect(p.ex, dir);
    ExchangeLaws.BlobSaysTheSequence(p.ex, dir);
    ExchangeLaws.SequenceIsSmall(p.ex, dir);
    if p.Turns(dir) == 0 {
      if dir == X.Tx {
        SendingSequence(p, peer, out, inbound);
      } else {
        ReceivingSequence(p, peer, out, inbound);
      }
    }
  }

  /** What installing does to the ledger. */
  lemma InstalledLedger(kdf: Kdf, session: Session, p: Party, peer: Party, out: seq<byte>, inbound: seq<byte>, dir: X.Direction)
    requires Paired(p, peer, out, inbound) && NoncesHold(p, peer) && DuplexKeys.KeysHold(kdf, session, p)
    requires Legal(session, p, peer, inbound, Install(dir))
    ensures var before, after := p.LedgerOf(dir), Acted(kdf, p, peer, inbound, Install(dir)).LedgerOf(dir);
            && after.installed && after.used == before.used && after.epoch == p.Turns(dir)
            && (after.epoch > 0 ==> after.next == 0 && forall u :: u in before.used ==> u.0 < after.epoch)
            && (after.epoch == 0 ==> before.used == Firsts(after.next) && after.next <= CAPACITY)
  {
    InstallEffect(p.ex, dir);
    InstalledNext(kdf, session, p, peer, out, inbound, dir);
  }

  lemma InstallKeeps(kdf: Kdf, session: Session, p: Party, peer: Party, out: seq<byte>, inbound: seq<byte>, a: Action)
    requires a.Install? && Paired(p, peer, out, inbound) && NoncesHold(p, peer) && DuplexKeys.KeysHold(kdf, session, p)
    requires Legal(session, p, peer, inbound, a)
    ensures NoncesHold(Acted(kdf, p, peer, inbound, a), peer)
  {
    var dir := a.dir;
    var q := Acted(kdf, p, peer, inbound, a);
    InstallEffect(p.ex, dir);
    InstalledNext(kdf, session, p, peer, out, inbound, dir);
    var count := if dir == X.Tx then AppWritten(p) else AppRead(p, peer);
    InstallingHolds(p.LedgerOf(dir), p.Turns(dir), count, q.LedgerOf(dir).next);
    assert q.Stream() == p.Stream();
  }

  lemma TakingSpendsNothing(kdf: Kdf, p: Party, peer: Party, out: seq<byte>, inbound: seq<byte>, a: Action)
    requires a.Take? && Paired(p, peer, out, inbound) && NoncesHold(p, peer)
    ensures NoncesHold(Acted(kdf, p, peer, inbound, a), peer)
  {
    TakeKeeps(kdf, p, peer, out, inbound, a);
  }

  lemma DeliverySpendsNothing(kdf: Kdf, session: Session, p: Party, peer: Party, out: seq<byte>, inbound: seq<byte>, a: Action)
    requires a.Deliver? && Paired(p, peer, out, inbound) && NoncesHold(p, peer) && Legal(session, p, peer, inbound, a)
    ensures NoncesHold(Acted(kdf, p, peer, inbound, a), peer)
  {
    DeliverKeeps(kdf, session, p, peer, out, inbound, a);
    FeedingReadsNothing(p, Acted(kdf, p, peer, inbound, a), peer, inbound[..a.n]);
  }

  /** These change only keys and turns. */
  lemma KeysSpendNothing(kdf: Kdf, p: Party, peer: Party, inbound: seq<byte>, a: Action)
    requires p.ex.Valid() && NoncesHold(p, peer) && (a.KeyLine? || a.NextKey? || a.Ask?)
    ensures NoncesHold(Acted(kdf, p, peer, inbound, a), peer)
  {
    var q := Acted(kdf, p, peer, inbound, a);
    assert q.ex == p.ex.(keys := q.ex.keys) && q.finished == p.finished && q.read == p.read;
    assert q.Stream() == p.Stream();
  }

  lemma KernelKeeps(kdf: Kdf, p: Party, peer: Party, inbound: seq<byte>, a: Action)
    requires a.KernelRecord? && p.ex.Valid() && NoncesHold(p, peer) && p.LedgerOf(a.dir).installed
    ensures NoncesHold(Acted(kdf, p, peer, inbound, a), peer)
  {
    KernelHolds(p.LedgerOf(a.dir), p.Turns(a.dir), if a.dir == X.Tx then AppWritten(p) else AppRead(p, peer));
  }

  lemma ReleaseSpendsNothing(kdf: Kdf, p: Party, peer: Party, inbound: seq<byte>, a: Action)
    requires a.Release? && p.ex.Valid() && NoncesHold(p, peer) && p.tx.installed && p.rx.installed
    ensures NoncesHold(Acted(kdf, p, peer, inbound, a), peer)
  {
  }

  lemma ActorKeeps(kdf: Kdf, session: Session, p: Party, peer: Party, out: seq<byte>, inbound: seq<byte>, a: Action)
    requires Paired(p, peer, out, inbound) && NoncesHold(p, peer) && DuplexKeys.KeysHold(kdf, session, p)
    requires Legal(session, p, peer, inbound, a)
    ensures NoncesHold(Acted(kdf, p, peer, inbound, a), peer)
  {
    if a.Take? {
      TakingSpendsNothing(kdf, p, peer, out, inbound, a);
    } else if a.Deliver? {
      DeliverySpendsNothing(kdf, session, p, peer, out, inbound, a);
    } else if a.Step? {
      StepKeeps(kdf, session, p, peer, out, inbound, a);
    } else if a.Backlog? {
      BacklogKeeps(kdf, session, p, peer, out, inbound, a);
    } else if a.Install? {
      InstallKeeps(kdf, session, p, peer, out, inbound, a);
    } else if a.KernelRecord? {
      KernelKeeps(kdf, p, peer, inbound, a);
    } else if a.Release? {
      ReleaseSpendsNothing(kdf, p, peer, inbound, a);
    } else {
      KeysSpendNothing(kdf, p, peer, inbound, a);
    }
  }

  /** The other side's ledgers do not move; its count of records read stays 0 while the Finished it could
      read past is only being written. */
  lemma PeerKeeps(p: Party, q: Party, peer: Party, out: seq<byte>, out': seq<byte>, inbound: seq<byte>, inbound': seq<byte>)
    requires Paired(p, peer, out, inbound) && Paired(q, peer, out', inbound') && NoncesHold(peer, p)
    requires q.finished == p.finished || (p.finished.None? && !peer.ex.done)
    ensures NoncesHold(peer, q)
  {
    if q.finished != p.finished {
      NothingReadYet(peer, p);
      NothingReadYet(peer, q);
    }
  }
}
