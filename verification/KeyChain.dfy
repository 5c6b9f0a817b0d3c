/** Traffic secrets, what is derived from them, and the blob the Linux kernel takes. */
module KeyChain {
  import opened Bytes
  import opened KeyLog

  /** HKDF-Expand-Label (section 7.1 of RFC 8446) as the library calls it: secret, label, length. */
  type Kdf = f: (seq<byte>, string, nat) -> seq<byte> | forall s, l, n :: |f(s, l, n)| == n
    witness (s: seq<byte>, l: string, n: nat) => seq(n, _ => 0)

  datatype Cipher = NoCipher | Aes128Gcm | ChaCha20Poly1305

  /** Octets of the union that holds either blob, and of its parts. */
  const INFO := 56
  const IV := 12
  const SEQUENCE := 8

  function KeyLength(c: Cipher): (n: nat)
  {
    if c.Aes128Gcm? then 16 else 32
  }

  function BlobLength(c: Cipher): nat {
    if c.Aes128Gcm? then 40 else 56
  }

  /** Version 0x0304 and the kernel's number for the cipher, low octet first. */
  function BlobHead(c: Cipher): (h: seq<byte>)
    ensures |h| == 4
  {
    [0x04, 0x03, if c.Aes128Gcm? then 51 else 54, 0]
  }

  function Zeros(n: nat): (z: seq<byte>)
    ensures |z| == n
  {
    seq(n, _ => 0)
  }

  /** One key and one 12-octet iv as the kernel wants them: AES-GCM has 8 octets of iv, the key and then the
      4 octets of salt the iv began with; ChaCha has the iv whole. The sequence is still zero. */
  function Layout(c: Cipher, key: seq<byte>, iv: seq<byte>): (info: seq<byte>)
    requires |key| == KeyLength(c) && |iv| == IV
    ensures |info| == INFO
  {
    if c.Aes128Gcm? then BlobHead(c) + iv[4..] + key + iv[..4] + Zeros(24)
    else BlobHead(c) + iv + key + Zeros(8)
  }

  /** The union after the derivation of section 7.3 of RFC 8446. */
  function Derived(kdf: Kdf, c: Cipher, secret: seq<byte>): (info: seq<byte>)
    ensures |info| == INFO
  {
    Layout(c, kdf(secret, "key", KeyLength(c)), kdf(secret, "iv", IV))
  }

  /** Rewrites the sequence, the last 8 octets of the cipher's blob. */
  function WithSequence(c: Cipher, info: seq<byte>, n: nat): (r: seq<byte>)
    requires |info| == INFO
    ensures |r| == INFO
  {
    var at := BlobLength(c) - SEQUENCE;
    info[..at] + BigEndian(n, SEQUENCE) + info[at + SEQUENCE..]
  }

  function Blob(c: Cipher, info: seq<byte>): seq<byte>
    requires |info| == INFO
  {
    info[..BlobLength(c)]
  }

  // What the kernel reads out of a blob, after `struct tls12_crypto_info_*`.

  function KernelSequence(b: seq<byte>): nat
    requires |b| >= SEQUENCE
  {
    FromBigEndian(b[|b| - SEQUENCE..])
  }

  /** Octets 0 and 1, low one first. */
  function KernelVersion(b: seq<byte>): nat
    requires |b| >= 4
  {
    b[0] as int + 256 * (b[1] as int)
  }

  /** The cipher that octets 2 and 3 number, low one first, if the length is that of its structure. */
  function KernelCipher(b: seq<byte>): Option<Cipher>
    requires |b| >= 4
  {
    match b[2] as int + 256 * (b[3] as int)
    case 51 => if |b| == 40 then Some(Aes128Gcm) else None
    case 54 => if |b| == 56 then Some(ChaCha20Poly1305) else None
    case _ => None
  }

  function KernelIv(c: Cipher, b: seq<byte>): seq<byte>
    requires |b| == BlobLength(c)
  {
    if c.Aes128Gcm? then b[28..32] + b[4..12] else b[4..16]
  }

  function KernelKey(c: Cipher, b: seq<byte>): seq<byte>
    requires |b| == BlobLength(c)
  {
    if c.Aes128Gcm? then b[12..28] else b[16..48]
  }

  lemma BlobParts(c: Cipher, key: seq<byte>, iv: seq<byte>, n: nat)
    requires |key| == KeyLength(c) && |iv| == IV
    ensures var b := Blob(c, WithSequence(c, Layout(c, key, iv), n));
            && |b| == BlobLength(c)
            && b[..4] == BlobHead(c)
            && b[|b| - SEQUENCE..] == BigEndian(n, SEQUENCE)
            && KernelKey(c, b) == key
            && if c.Aes128Gcm? then b[28..32] == iv[..4] && b[4..12] == iv[4..] else b[4..16] == iv
  {
  }

  /** The kernel reads back exactly what went in: version and cipher, the sequence, for every 64-bit number, the
      key, and the iv as it was derived, salt first. */
  lemma KernelReadsBack(kdf: Kdf, c: Cipher, secret: seq<byte>, n: nat)
    requires n < TWO_64 && c != NoCipher
    ensures var b := Blob(c, WithSequence(c, Derived(kdf, c, secret), n));
            KernelReads(kdf, c, secret, b) && KernelSequence(b) == n
  {
    var iv := kdf(secret, "iv", IV);
    BlobParts(c, kdf(secret, "key", KeyLength(c)), iv, n);
    BigEndian64(n);
    assert iv[..4] + iv[4..] == iv;
  }

  /** The kernel takes the blob for TLS 1.3 and this cipher, with the key and the iv of section 7.3 of RFC 8446. */
  ghost predicate KernelReads(kdf: Kdf, c: Cipher, secret: seq<byte>, b: seq<byte>) {
    && c != NoCipher && |b| == BlobLength(c)
    && KernelVersion(b) == 0x0304 && KernelCipher(b) == Some(c)
    && KernelKey(c, b) == kdf(secret, "key", if c == Aes128Gcm then 16 else 32)
    && KernelIv(c, b) == kdf(secret, "iv", 12)
  }

  lemma SequenceRewritten(c: Cipher, info: seq<byte>, m: nat, n: nat)
    requires |info| == INFO
    ensures WithSequence(c, WithSequence(c, info, m), n) == WithSequence(c, info, n)
  {
    var at := BlobLength(c) - SEQUENCE;
    var i := WithSequence(c, info, m);
    assert i[..at] == info[..at];
    assert i[at + SEQUENCE..] == info[at + SEQUENCE..];
  }

  lemma FreshSequence(kdf: Kdf, c: Cipher, secret: seq<byte>)
    ensures WithSequence(c, Derived(kdf, c, secret), 0) == Derived(kdf, c, secret)
  {
    assert BigEndian(0, 8) == Zeros(8) by {
      forall i | 0 <= i < 8 ensures BigEndian(0, 8)[i] == 0 {
        BigEndianAt(0, 8, 7 - i);
        ShiftedZero(7 - i);
      }
    }
    var info, at := Derived(kdf, c, secret), BlobLength(c) - SEQUENCE;
    assert info[at..at + SEQUENCE] == Zeros(8);
    assert info == info[..at] + info[at..at + SEQUENCE] + info[at + SEQUENCE..];
  }

  lemma {:induction false} ShiftedZero(i: nat)
    ensures Shifted(0, i) == 0
  {
    if i > 0 { ShiftedZero(i - 1); }
  }

  // ---- one direction's slot, and the two of them ----

  datatype Key = Key(secret: Secret, rekeyed: bool, info: seq<byte>) {
    ghost predicate Valid() {
      secret.Valid() && |info| == INFO
    }
  }

  datatype Keyring = Keyring(client: Key, server: Key) {
    ghost predicate Valid() {
      client.Valid() && server.Valid()
    }

    function Of(slot: Slot): Key {
      if slot.ClientSlot? then client else server
    }

    function With(slot: Slot, k: Key): Keyring {
      if slot.ClientSlot? then this.(client := k) else this.(server := k)
    }
  }

  function NoKey(): Key {
    Key(NoSecret(), false, Zeros(INFO))
  }

  /** Derives the blob again from the slot's secret, unless there is none. */
  function Filled(kdf: Kdf, c: Cipher, k: Key): (r: Option<Key>)
    requires k.Valid()
    ensures r.Some? ==> r.value.Valid()
  {
    if k.secret.length == 0 then None else Some(k.(info := Derived(kdf, c, k.secret.Value())))
  }

  /** The secret one notch on (section 7.2 of RFC 8446). */
  function NextSecret(kdf: Kdf, secret: seq<byte>): (r: seq<byte>)
    ensures |r| == |secret|
  {
    kdf(secret, "traffic upd", |secret|)
  }

  function {:induction false} Chain(kdf: Kdf, secret: seq<byte>, m: nat): (r: seq<byte>)
    ensures |r| == |secret|
  {
    if m == 0 then secret else NextSecret(kdf, Chain(kdf, secret, m - 1))
  }

  /** Every secret on the way, each one the expansion of the one before. */
  lemma {:induction false} Expansions(kdf: Kdf, secret: seq<byte>, m: nat) returns (secrets: seq<seq<byte>>)
    ensures |secrets| == m + 1 && secrets[0] == secret && secrets[m] == Chain(kdf, secret, m)
    ensures forall i :: 0 <= i < m ==> secrets[i + 1] == kdf(secrets[i], "traffic upd", |secrets[i]|)
  {
    if m == 0 {
      secrets := [secret];
    } else {
      secrets := Expansions(kdf, secret, m - 1);
      secrets := secrets + [NextSecret(kdf, secrets[m - 1])];
    }
  }

  /** The slot after an update: next secret, mark, and a blob derived again if there is a secret at all. */
  function Turned(kdf: Kdf, c: Cipher, k: Key): (r: Key)
    requires k.Valid()
    ensures r.Valid() && r.rekeyed
    ensures r.secret.Value() == NextSecret(kdf, k.secret.Value())
  {
    var n := k.secret.length;
    var next := k.(rekeyed := true, secret := Secret(NextSecret(kdf, k.secret.Value()) + k.secret.buffer[n..], n));
    match Filled(kdf, c, next) case Some(filled) => filled case None => next
  }

  /** What one key-log line does to the two slots. */
  function AfterLine(keys: Keyring, line: string): (r: Keyring)
    requires keys.Valid()
    ensures r.Valid()
  {
    match Target(line)
    case None => keys
    case Some((slot, at)) => keys.With(slot, keys.Of(slot).(secret := Store(keys.Of(slot).secret, line, at)))
  }

  /** A printed line stores exactly its secret in exactly its slot. */
  lemma LineStored(keys: Keyring, slot: Slot, random: seq<byte>, secret: seq<byte>)
    requires keys.Valid()
    ensures AfterLine(keys, Print(Label(slot), random, secret))
         == keys.With(slot, keys.Of(slot).(secret := Stored(keys.Of(slot).secret, secret)))
  {
    ParsingUndoesPrinting(slot, random, secret, keys.Of(slot).secret);
  }

  /** The two lines may come in either order. */
  lemma LinesCommute(keys: Keyring, r1: seq<byte>, s1: seq<byte>, r2: seq<byte>, s2: seq<byte>)
    requires keys.Valid()
    ensures var c, s := Print(CLIENT_LABEL, r1, s1), Print(SERVER_LABEL, r2, s2);
            AfterLine(AfterLine(keys, c), s) == AfterLine(AfterLine(keys, s), c)
  {
    var c, s := Print(CLIENT_LABEL, r1, s1), Print(SERVER_LABEL, r2, s2);
    LineStored(keys, ClientSlot, r1, s1);
    LineStored(keys, ServerSlot, r2, s2);
    LineStored(AfterLine(keys, c), ServerSlot, r2, s2);
    LineStored(AfterLine(keys, s), ClientSlot, r1, s1);
  }

  /** The slot holds `secret` after `m` updates, and its blob is the one derived from that, whatever
      sequence was last written into it. */
  ghost predicate Holds(kdf: Kdf, c: Cipher, k: Key, secret: seq<byte>, m: nat) {
    && k.Valid()
    && k.secret.Value() == Chain(kdf, secret, m)
    && k.rekeyed == (m > 0)
    && WithSequence(c, k.info, 0) == Derived(kdf, c, Chain(kdf, secret, m))
  }

  lemma TurnHolds(kdf: Kdf, c: Cipher, k: Key, secret: seq<byte>, m: nat)
    requires Holds(kdf, c, k, secret, m) && |secret| > 0
    ensures Holds(kdf, c, Turned(kdf, c, k), secret, m + 1)
  {
    FreshSequence(kdf, c, Chain(kdf, secret, m + 1));
  }

  /** A slot that holds m updates of a secret gives, with sequence n, one blob and no other. */
  lemma BlobDetermined(kdf: Kdf, c: Cipher, k: Key, secret: seq<byte>, m: nat, n: nat)
    requires Holds(kdf, c, k, secret, m)
    ensures WithSequence(c, k.info, n) == WithSequence(c, Derived(kdf, c, Chain(kdf, secret, m)), n)
  {
    SequenceRewritten(c, k.info, 0, n);
  }

  class KeySlot {
    ghost var key: Key      // the value the buffers hold
    const octets: array<byte>
    var length: nat
    var rekeyed: bool
    const info: array<byte>

    ghost predicate Valid()
      reads this, octets, info
    {
      && octets != info && octets.Length == SECRET_MAX && length <= SECRET_MAX && info.Length == INFO
      && key == Key(Secret(octets[..], length), rekeyed, info[..])
    }

    constructor ()
      ensures Valid() && key == NoKey() && fresh(octets) && fresh(info)
    {
      octets := new byte[SECRET_MAX](_ => 0);
      info := new byte[INFO](_ => 0);
      length, rekeyed, key := 0, false, NoKey();
      new;
      assert octets[..] == NoSecret().buffer && info[..] == Zeros(INFO);
    }

    /** Parses a secret over the front of the buffer; the length moves only when the whole word was
        hexadecimal and fitted. */
    method Take(line: string, at: nat)
      requires Valid()
      modifies this`key, this`length, octets
      ensures Valid() && key == old(key).(secret := Store(old(key).secret, line, at))
    {
      ghost var was := octets[..];
      var ok, n := Unhex(line, at, octets);
      assert octets[..] == octets[..n] + was[n..];
      if ok {
        length := n;
      }
      key := key.(secret := Secret(octets[..], length));
    }

    /** Derives key and iv and lays them out in the cleared union. */
    method Fill(kdf: Kdf, c: Cipher) returns (ok: bool)
      requires Valid()
      modifies this`key, info
      ensures Valid()
      ensures ok == Filled(kdf, c, old(key)).Some?
      ensures key == if ok then Filled(kdf, c, old(key)).value else old(key)
    {
      if length == 0 {
        return false;
      }
      var derived := kdf(octets[..length], "key", KeyLength(c));
      var iv := kdf(octets[..length], "iv", IV);
      forall i | 0 <= i < INFO {
        info[i] := 0;
      }
      forall i | 0 <= i < 4 {
        info[i] := BlobHead(c)[i];
      }
      if c.Aes128Gcm? {
        forall i | 0 <= i < 16 {
          info[12 + i] := derived[i];
        }
        forall i | 0 <= i < 4 {
          info[28 + i] := iv[i];
        }
        forall i | 0 <= i < 8 {
          info[4 + i] := iv[4 + i];
        }
      } else {
        forall i | 0 <= i < 32 {
          info[16 + i] := derived[i];
        }
        forall i | 0 <= i < 12 {
          info[4 + i] := iv[i];
        }
      }
      assert info[..] == Layout(c, derived, iv);
      key := key.(info := info[..]);
      ok := true;
    }

    /** Turns the secret one notch, marks the slot and derives the blob again. */
    method Turn(kdf: Kdf, c: Cipher) returns (ok: bool)
      requires Valid()
      modifies this`key, this`rekeyed, octets, info
      ensures Valid() && key == Turned(kdf, c, old(key))
      ensures ok == (old(key).secret.length > 0)
    {
      var next := kdf(octets[..length], "traffic upd", length);
      forall i | 0 <= i < length {
        octets[i] := next[i];
      }
      assert octets[..] == next + old(octets[..])[length..];
      rekeyed := true;
      key := Key(Secret(octets[..], length), true, info[..]);
      ok := Fill(kdf, c);
    }

    /** Writes the sequence, most significant octet first, where the cipher's blob keeps it. */
    method PutSequence(c: Cipher, n: nat)
      requires Valid()
      modifies this`key, info
      ensures Valid() && key == old(key).(info := WithSequence(c, old(key).info, n))
    {
      var at := BlobLength(c) - SEQUENCE;
      for i := 0 to SEQUENCE
        invariant key == old(key)
        invariant forall j :: 0 <= j < INFO ==>
          info[j] == if at + SEQUENCE - i <= j < at + SEQUENCE then Shifted(n, at + SEQUENCE - 1 - j) % 256 else old(info[j])
      {
        info[at + SEQUENCE - 1 - i] := Shifted(n, i) % 256;
      }
      forall j | at <= j < at + SEQUENCE ensures info[j] == BigEndian(n, SEQUENCE)[j - at] {
        BigEndianAt(n, SEQUENCE, at + SEQUENCE - 1 - j);
      }
      assert info[..] == WithSequence(c, old(info[..]), n);
      key := key.(info := info[..]);
    }
  }
}
