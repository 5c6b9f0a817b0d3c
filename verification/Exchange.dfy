/** One exchange as a value: what a `struct ktls_exchange` stands for and what each call makes of it. The
    object in ExchangeObject.dfy counts records as they pass; the value keeps the two streams, and every
    answer is stated on those. */
module Exchange {
  import opened Bytes
  import opened Records
  import opened KeyLog
  import opened KeyChain

  datatype Direction = Tx | Rx

  datatype Answer = Done | Reading | Writing

  /** What BIO_pending says of no buffer at all, depending on the OpenSSL release. */
  type NullPending = i: int | -1 <= i <= 0

  datatype Ex = Ex(
    live: bool,              // the SSL and its two buffers are still there
    isServer: bool,          // the side the SSL was set up for
    absent: NullPending,
    input: seq<byte>,        // fed, not yet read by OpenSSL
    output: seq<byte>,       // written by OpenSSL, not yet taken
    done: bool,
    taken: seq<byte>,        // everything that left through take
    fed: seq<byte>,          // everything that came in through feed
    txAtDone: nat,
    rxAtDone: nat,
    server: bool,
    cipher: Cipher,
    alpn: seq<byte>,
    keys: Keyring)
  {
    ghost predicate Valid() {
      keys.Valid()
    }

    function PendingIn(): int {
      if live then |input| else absent
    }

    function PendingOut(): int {
      if live then |output| else absent
    }

    /** The octets OpenSSL has read, in C's 64-bit arithmetic. */
    function Consumed(): nat {
      (|fed| - PendingIn()) % TWO_64
    }

    function Overflowed(): bool {
      |Ends(taken)| > CAPACITY || |Ends(fed)| > CAPACITY
    }

    function Key(dir: Direction): KeyChain.Key {
      keys.Of(SlotFor(server, dir))
    }
  }

  /** Which secret a side sends with, and which it reads with. */
  function SlotFor(server: bool, dir: Direction): Slot {
    if (dir == Tx) == server then ServerSlot else ClientSlot
  }

  function Opened(isServer: bool, absent: NullPending): (x: Ex)
    ensures x.Valid()
  {
    Ex(true, isServer, absent, [], [], false, [], [], 0, 0, false, NoCipher, [], Keyring(NoKey(), NoKey()))
  }

  // ---- what OpenSSL does in one call, as the environment chooses ----

  datatype Outcome = Complete | WantMore | Broken

  /** One call into OpenSSL: how much of `in` it read, what it appended to `out`, how the handshake stands,
      and what was negotiated. */
  datatype Ssl = Ssl(eaten: nat, wrote: seq<byte>, outcome: Outcome, cipher: Cipher, alpn: seq<byte>)

  /** OpenSSL reads from the front of `in` and appends to `out`. */
  function Moved(x: Ex, ssl: Ssl): (r: Ex)
    ensures x.Valid() ==> r.Valid()
  {
    x.(input := x.input[Min(ssl.eaten, |x.input|)..], output := x.output + ssl.wrote)
  }

  // ---- the calls ----

  /** How many octets BIO_write takes of `n`: its length is a C int, and a negative one is refused. */
  function Written(n: nat): Option<nat> {
    if ToInt32(n) < 0 then None else Some(ToInt32(n))
  }

  function Feed(x: Ex, bytes: seq<byte>): (Ex, int) {
    if !x.live then (x, -1)
    else if bytes == [] then (x, 0)
    else match Written(|bytes|)
      case None => (x, -1)
      case Some(w) => (x.(input := x.input + bytes[..w], fed := x.fed + bytes), 0)
  }

  /** How many octets a take of capacity `cap` gets; the capacity is a C int too. */
  function Takes(x: Ex, cap: nat): (n: nat)
    ensures n <= |x.output| && n <= cap
  {
    if !x.live || ToInt32(cap) < 0 then 0 else Min(ToInt32(cap), |x.output|)
  }

  function Take(x: Ex, cap: nat): (Ex, seq<byte>) {
    var n := Takes(x, cap);
    (x.(output := x.output[n..], taken := x.taken + x.output[..n]), x.output[..n])
  }

  function DeriveFor(kdf: Kdf, x: Ex, dir: Direction): (r: (Ex, bool))
    requires x.Valid()
    ensures r.0.Valid() && r.0 == x.(keys := r.0.keys)
  {
    var slot := SlotFor(x.isServer, dir);
    match Filled(kdf, x.cipher, x.keys.Of(slot))
    case None => (x, false)
    case Some(k) => (x.(keys := x.keys.With(slot, k)), true)
  }

  /** Both blobs, the one for writing first; false when a suite or a secret is missing. */
  function DeriveBoth(kdf: Kdf, x: Ex, cipher: Cipher): (r: (Ex, bool))
    requires x.Valid()
    ensures r.0.Valid() && r.0 == x.(cipher := cipher, keys := r.0.keys)
  {
    var chosen := x.(cipher := cipher);
    if cipher == NoCipher then (chosen, false)
    else
      var (half, ok) := DeriveFor(kdf, chosen, Tx);
      if ok then DeriveFor(kdf, half, Rx) else (half, false)
  }

  /** The two boundaries, from offsets alone: a client's own Finished is still pending, a server's left
      long ago. */
  function Settled(x: Ex, alpn: seq<byte>): (r: Ex)
    requires x.live
    ensures x.Valid() ==> r.Valid()
  {
    x.(txAtDone := |x.taken| + if x.isServer then 0 else |x.output|,
       rxAtDone := x.Consumed(),
       server := x.isServer,
       alpn := if 0 < |alpn| <= 32 then alpn else x.alpn,
       done := true)
  }

  /** The call in which the handshake completes. */
  function Finished(kdf: Kdf, x: Ex, ssl: Ssl): (r: (Ex, bool))
    requires x.Valid() && x.live
    ensures r.0.Valid()
    ensures r.0 == if r.1 then Settled(x.(cipher := ssl.cipher, keys := r.0.keys), ssl.alpn)
                   else x.(cipher := ssl.cipher, keys := r.0.keys)
  {
    var (z, derived) := DeriveBoth(kdf, x, ssl.cipher);
    (if derived then Settled(z, ssl.alpn) else z, derived)
  }

  function Owing(x: Ex, otherwise: Answer): Answer {
    if x.output != [] then Writing else otherwise
  }

  /** A handshake call on an exchange that is not done; no answer means the step failed. */
  function Handshake(kdf: Kdf, x: Ex, ssl: Ssl): (r: (Ex, Option<Answer>))
    requires x.Valid() && x.live
    ensures r.0.Valid()
  {
    var y := Moved(x, ssl);
    match ssl.outcome
    case Broken => (y, None)
    case WantMore => (y, Some(Owing(y, Reading)))
    case Complete =>
      var (z, derived) := Finished(kdf, y, ssl);
      (z, if derived then Some(Owing(z, Done)) else None)
  }

  function Step(kdf: Kdf, x: Ex, ssl: Ssl): (r: (Ex, Option<Answer>))
    requires x.Valid()
    ensures r.0.Valid()
  {
    if !x.live then (x, None)
    else if x.done then (x, Some(Owing(x, Done)))
    else Handshake(kdf, x, ssl)
  }

  function Backlog(x: Ex, ssl: Ssl): Ex {
    if !x.done || !x.live then x else Moved(x, ssl)
  }

  function KeyLine(x: Ex, line: string): (r: Ex)
    requires x.Valid()
    ensures r.Valid()
  {
    x.(keys := AfterLine(x.keys, line))
  }

  function RecordSequence(x: Ex, dir: Direction): nat {
    if !x.done || x.Key(dir).rekeyed then 0
    else if dir == Tx then CountIn(Capped(Ends(x.taken)), x.txAtDone, |x.taken|)
    else CountIn(Capped(Ends(x.fed)), x.rxAtDone, x.Consumed())
  }

  predicate Answers(x: Ex) {
    x.done && x.PendingOut() <= 0 && !x.Overflowed()
  }

  function CryptoInfo(x: Ex, dir: Direction): (r: (Ex, Option<seq<byte>>))
    requires x.Valid()
    ensures r.0.Valid()
  {
    if !Answers(x) then (x, None)
    else
      var k := x.Key(dir);
      var info := WithSequence(x.cipher, k.info, RecordSequence(x, dir));
      (x.(keys := x.keys.With(SlotFor(x.server, dir), k.(info := info))), Some(Blob(x.cipher, info)))
  }

  function NextKey(kdf: Kdf, x: Ex, dir: Direction): (r: (Ex, int))
    requires x.Valid()
    ensures r.0.Valid()
  {
    if !x.done then (x, -1)
    else
      var k := x.Key(dir);
      (x.(keys := x.keys.With(SlotFor(x.server, dir), Turned(kdf, x.cipher, k))), if k.secret.length > 0 then 0 else -1)
  }

  function Release(x: Ex): Ex {
    if !x.live then x else x.(live := false, input := [], output := [])
  }
}
