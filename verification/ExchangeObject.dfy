/** The exchange as the mutable object it is. Each method is proved to do to the object what the function of
    the same name in module Exchange does to its value. */
module ExchangeObject {
  import opened Bytes
  import opened Records
  import opened KeyLog
  import opened KeyChain
  import X = Exchange

  class KtlsExchange {
    const kdf: Kdf
    const isServer: bool
    const absent: X.NullPending
    var live: bool
    var input: seq<byte>
    var output: seq<byte>
    var done: bool
    const tx: Scanner
    const rx: Scanner
    var txAtDone: nat
    var rxAtDone: nat
    var rxFed: nat
    var server: bool
    var cipher: Cipher
    var alpn: seq<byte>
    const clientKey: KeySlot
    const serverKey: KeySlot

    ghost predicate Apart() {
      && tx != rx && tx.ends != rx.ends && clientKey != serverKey
      && tx.head != rx.head && tx.head != clientKey.octets && tx.head != clientKey.info && tx.head != serverKey.octets && tx.head != serverKey.info
      && rx.head != clientKey.octets && rx.head != clientKey.info && rx.head != serverKey.octets && rx.head != serverKey.info
      && clientKey.octets != clientKey.info && clientKey.octets != serverKey.octets && clientKey.octets != serverKey.info
      && clientKey.info != serverKey.octets && clientKey.info != serverKey.info
      && serverKey.octets != serverKey.info
    }

    ghost predicate ScannersValid()
      reads tx, tx.head, tx.ends, rx, rx.head, rx.ends
    {
      tx.Valid() && rx.Valid()
    }

    ghost predicate SlotsValid()
      reads clientKey, clientKey.octets, clientKey.info, serverKey, serverKey.octets, serverKey.info
    {
      Apart() && clientKey.Valid() && serverKey.Valid()
    }

    ghost predicate Valid()
      reads this, tx, tx.head, tx.ends, rx, rx.head, rx.ends
      reads clientKey, clientKey.octets, clientKey.info, serverKey, serverKey.octets, serverKey.info
    {
      ScannersValid() && SlotsValid() && rxFed == |rx.seen|
    }

    ghost function View(): (x: X.Ex)
      reads this, tx, rx, clientKey, serverKey
    {
      X.Ex(live, isServer, absent, input, output, done, tx.seen, rx.seen, txAtDone, rxAtDone, server, cipher, alpn,
           Keyring(clientKey.key, serverKey.key))
    }

    constructor (kdf: Kdf, isServer: bool, absent: X.NullPending)
      ensures Valid() && fresh(tx) && fresh(rx) && fresh(clientKey) && fresh(serverKey) && View() == X.Opened(isServer, absent) && this.kdf == kdf
    {
      this.kdf, this.isServer, this.absent := kdf, isServer, absent;
      live, input, output, done := true, [], [], false;
      tx := new Scanner();
      rx := new Scanner();
      txAtDone, rxAtDone, rxFed := 0, 0, 0;
      server, cipher, alpn := false, NoCipher, [];
      clientKey := new KeySlot();
      serverKey := new KeySlot();
    }

    method Feed(bytes: seq<byte>) returns (rc: int)
      requires Valid()
      modifies this`input, this`rxFed, rx, rx.head, rx.ends
      ensures Valid() && (View(), rc) == X.Feed(old(View()), bytes)
    {
      if !live {
        return -1;
      }
      if |bytes| == 0 {
        return 0;
      }
      var len := ToInt32(|bytes|);
      if len < 0 {
        return -1;
      }
      Gain(bytes, len);
      return 0;
    }

    /** The first `len` octets go to the buffer, and all of them through the scanner. */
    method Gain(bytes: seq<byte>, len: nat)
      requires Valid() && len <= |bytes|
      modifies this`input, this`rxFed, rx, rx.head, rx.ends
      ensures ScannersValid() && rxFed == |rx.seen|
      ensures View() == old(View()).(input := old(input) + bytes[..len], fed := old(rx.seen) + bytes)
    {
      input := input + bytes[..len];
      rx.Scan(bytes);
      rxFed := rxFed + |bytes|;
    }

    method Take(cap: nat) returns (bytes: seq<byte>)
      requires Valid()
      modifies this`output, tx, tx.head, tx.ends
      ensures Valid() && (View(), bytes) == X.Take(old(View()), cap)
    {
      if !live || ToInt32(cap) <= 0 || output == [] {
        assert tx.seen + [] == tx.seen && output[..0] == [];
        return [];
      }
      var n := Min(ToInt32(cap), |output|);
      bytes := output[..n];
      output := output[n..];
      tx.Scan(bytes);
    }

    /** The slot of `struct ktls_exchange` with index 1 is the server's secret. */
    function SlotObject(slot: Slot): KeySlot {
      if slot.ClientSlot? then clientKey else serverKey
    }

    method DeriveBoth(negotiated: Cipher) returns (ok: bool)
      requires SlotsValid()
      modifies this`cipher, clientKey`key, clientKey.info, serverKey`key, serverKey.info
      ensures SlotsValid() && (View(), ok) == X.DeriveBoth(kdf, old(View()), negotiated)
    {
      cipher := negotiated;
      if cipher == NoCipher {
        return false;
      }
      ok := DeriveFor(X.Tx);
      if ok {
        ok := DeriveFor(X.Rx);
      }
    }

    method DeriveFor(dir: X.Direction) returns (ok: bool)
      requires SlotsValid()
      modifies clientKey`key, clientKey.info, serverKey`key, serverKey.info
      ensures SlotsValid() && (View(), ok) == X.DeriveFor(kdf, old(View()), dir)
    {
      if isServer == (dir == X.Tx) {
        ok := serverKey.Fill(kdf, cipher);
      } else {
        ok := clientKey.Fill(kdf, cipher);
      }
    }

    /** Writes down where the two streams stand when the handshake is over. */
    method Settle(negotiatedAlpn: seq<byte>)
      requires live && tx.offset == |tx.seen| && rxFed == |rx.seen|
      modifies this`txAtDone, this`rxAtDone, this`server, this`alpn, this`done
      ensures View() == X.Settled(old(View()), negotiatedAlpn)
    {
      txAtDone := tx.offset;
      server := isServer;
      if !server {
        txAtDone := txAtDone + |output|;
      }
      rxAtDone := (rxFed - |input|) % TWO_64;
      if 0 < |negotiatedAlpn| <= 32 {
        alpn := negotiatedAlpn;
      }
      done := true;
    }

    method Finish(ssl: X.Ssl) returns (ok: bool)
      requires SlotsValid() && live && tx.offset == |tx.seen| && rxFed == |rx.seen|
      modifies this`txAtDone, this`rxAtDone, this`server, this`alpn, this`done, this`cipher
      modifies clientKey`key, clientKey.info, serverKey`key, serverKey.info
      ensures SlotsValid() && (View(), ok) == X.Finished(kdf, old(View()), ssl)
    {
      ok := DeriveBoth(ssl.cipher);
      if ok {
        Settle(ssl.alpn);
      }
    }

    method Handshake(ssl: X.Ssl) returns (answer: Option<X.Answer>)
      requires SlotsValid() && live && tx.offset == |tx.seen| && rxFed == |rx.seen|
      modifies this`input, this`output, this`txAtDone, this`rxAtDone, this`server, this`alpn, this`done, this`cipher
      modifies clientKey`key, clientKey.info, serverKey`key, serverKey.info
      ensures SlotsValid() && (View(), answer) == X.Handshake(kdf, old(View()), ssl)
    {
      input := input[Min(ssl.eaten, |input|)..];
      output := output + ssl.wrote;
      assert View() == X.Moved(old(View()), ssl);
      match ssl.outcome {
        case Broken =>
          answer := None;
        case WantMore =>
          answer := Some(if |output| > 0 then X.Writing else X.Reading);
        case Complete =>
          var derived := Finish(ssl);
          answer := if derived then Some(if |output| > 0 then X.Writing else X.Done) else None;
      }
    }

    method Step(ssl: X.Ssl) returns (answer: Option<X.Answer>)
      requires Valid()
      modifies this`input, this`output, this`txAtDone, this`rxAtDone, this`server, this`alpn, this`done, this`cipher
      modifies clientKey`key, clientKey.info, serverKey`key, serverKey.info
      ensures Valid() && (View(), answer) == X.Step(kdf, old(View()), ssl)
    {
      if !live {
        return None;
      }
      if !done {
        answer := Handshake(ssl);
        assert ScannersValid();
      } else {
        answer := Some(if |output| > 0 then X.Writing else X.Done);
      }
    }

    method Backlog(ssl: X.Ssl)
      requires Valid()
      modifies this`input, this`output
      ensures Valid() && View() == X.Backlog(old(View()), ssl)
    {
      if !done || !live {
        return;
      }
      input := input[Min(ssl.eaten, |input|)..];
      output := output + ssl.wrote;
    }

    /** The key-log callback. */
    method KeyLine(line: string)
      requires Valid()
      modifies clientKey`key, clientKey`length, clientKey.octets, serverKey`key, serverKey`length, serverKey.octets
      ensures Valid() && View() == X.KeyLine(old(View()), line)
    {
      var target := Target(line);
      if target.Some? {
        SlotObject(target.value.0).Take(line, target.value.1);
      }
    }

    method RecordSequence(dir: X.Direction) returns (n: nat)
      requires Valid()
      ensures n == X.RecordSequence(View(), dir)
    {
      if !done || SlotObject(X.SlotFor(server, dir)).rekeyed {
        return 0;
      }
      if dir == X.Tx {
        n := tx.Between(txAtDone, tx.offset);
      } else {
        var pending: int := if live then |input| else absent;
        n := rx.Between(rxAtDone, (rxFed - pending) % TWO_64);
      }
    }

    method CryptoInfo(dir: X.Direction) returns (blob: Option<seq<byte>>)
      requires Valid()
      modifies clientKey`key, clientKey.info, serverKey`key, serverKey.info
      ensures Valid() && (View(), blob) == X.CryptoInfo(old(View()), dir)
    {
      var pending: int := if live then |output| else absent;
      if !done || pending > 0 || tx.overflowed || rx.overflowed {
        return None;
      }
      var n := RecordSequence(dir);
      var octets := PutFor(dir, n);
      blob := Some(octets);
    }

    /** The sequence goes into the slot's blob, and the blob out. */
    method PutFor(dir: X.Direction, n: nat) returns (blob: seq<byte>)
      requires SlotsValid()
      modifies clientKey`key, clientKey.info, serverKey`key, serverKey.info
      ensures SlotsValid()
      ensures var x, slot := old(View()), X.SlotFor(server, dir);
              var info := WithSequence(cipher, x.keys.Of(slot).info, n);
              View() == x.(keys := x.keys.With(slot, x.keys.Of(slot).(info := info))) && blob == Blob(cipher, info)
    {
      var slot := SlotObject(X.SlotFor(server, dir));
      slot.PutSequence(cipher, n);
      blob := slot.info[..BlobLength(cipher)];
    }

    method NextKey(dir: X.Direction) returns (rc: int)
      requires Valid()
      modifies clientKey, clientKey.octets, clientKey.info, serverKey, serverKey.octets, serverKey.info
      ensures Valid() && (View(), rc) == X.NextKey(kdf, old(View()), dir)
    {
      if !done {
        return -1;
      }
      var ok := SlotObject(X.SlotFor(server, dir)).Turn(kdf, cipher);
      return if ok then 0 else -1;
    }

    method Release()
      requires Valid()
      modifies this`live, this`input, this`output
      ensures Valid() && View() == X.Release(old(View()))
    {
      if live {
        live, input, output := false, [], [];
      }
    }
  }
}
