/** How many records one AES-GCM key protects when a caller counts as the library tells it to. */
module RecordLimit {
  import opened Bytes
  import opened KeyChain
  import opened Duplex
  import Records
  import Handover
  import X = Exchange

  /** Records after which a caller must turn the key; 0 when there is no limit worth counting. */
  function Limit(c: Cipher): nat {
    if c.Aes128Gcm? then 0x80_0000 else 0
  }

  /** The most records the kernel makes of one send of `len` octets, and what the caller counts for it. */
  function Pieces(len: nat): nat {
    (len + 16383) / 16384
  }

  /** Full records of 2^14 octets and one more for what is over: the least number that holds them all. */
  lemma PiecesAreEnough(len: nat, n: nat)
    ensures len <= 16384 * n <==> Pieces(len) <= n
  {
  }

  /** One send: its length and the records the kernel made of it. */
  datatype Send = Send(len: nat, emitted: nat)

  /** The caller's count, the records really made under the key in force, and the most any key so far has
      protected. */
  datatype Counter = Counter(records: nat, onKey: nat, most: nat)

  function Larger(a: nat, b: nat): nat {
    if a <= b then b else a
  }

  /** One turn of the caller's loop: the send, the count, and a new key once the count reaches the limit. */
  function Sent(limit: nat, c: Counter, s: Send): Counter {
    var records, onKey := c.records + Pieces(s.len), c.onKey + s.emitted;
    var most := Larger(c.most, onKey);
    if limit != 0 && records >= limit then Counter(0, 0, most) else Counter(records, onKey, most)
  }

  /** Every key's records show in `most`, and nothing else does. */
  lemma MostIsOfSomeKey(limit: nat, c: Counter, s: Send)
    ensures var most := Sent(limit, c, s).most;
            && most >= c.most && most >= c.onKey + s.emitted && (most == c.most || most == c.onKey + s.emitted)
  {
  }

  function Run(limit: nat, c: Counter, sends: seq<Send>): Counter {
    if sends == [] then c else Sent(limit, Run(limit, c, sends[..|sends| - 1]), sends[|sends| - 1])
  }

  /** `before` records were made before the handover. */
  function Start(before: nat): Counter {
    Counter(0, before, before)
  }

  ghost predicate Possible(sends: seq<Send>, longest: nat) {
    forall i :: 0 <= i < |sends| ==> sends[i].len <= longest && sends[i].emitted <= Pieces(sends[i].len)
  }

  /** Over any number of sends and key changes. */
  lemma {:induction false} RunStaysBelow(limit: nat, before: nat, sends: seq<Send>, longest: nat)
    requires limit > 0 && Possible(sends, longest)
    ensures var c := Run(limit, Start(before), sends);
            && c.records < limit && c.onKey <= before + c.records
            && c.most <= before + limit - 1 + Pieces(longest)
  {
    if sends != [] {
      var s := sends[|sends| - 1];
      RunStaysBelow(limit, before, sends[..|sends| - 1], longest);
      assert Pieces(s.len) <= Pieces(longest);
    }
  }

  /** More than 2^24.5 records, squared (section 5.5 of RFC 8446). */
  predicate TooMany(n: nat) {
    n * n >= 0x2_0000_0000_0000
  }

  /** The limit is not half of 2^24.5, as it is described, but the next power of two below that: twice the
      limit is still within the standard's bound, four times is not. */
  lemma LimitIsBelowHalf()
    ensures var limit := Limit(Aes128Gcm); !TooMany(2 * limit) && TooMany(4 * limit)
  {
  }

  lemma TooManyFrom(n: nat)
    ensures TooMany(n) <==> n >= 23726567
  {
    if n >= 23726567 {
      SquaresRise(23726567, n);
    } else {
      SquaresRise(n, 23726566);
    }
  }

  lemma SquaresRise(a: nat, b: nat)
    requires a <= b
    ensures a * a <= b * b
  {
    assert a * a <= a * b <= b * b by {
      MulRises(a, a, b);
      MulRises(b, a, b);
    }
  }

  lemma MulRises(k: nat, a: nat, b: nat)
    requires a <= b
    ensures k * a <= k * b
  {
  }

  ghost predicate SafeFor(longest: nat) {
    forall before: nat, sends: seq<Send> :: before <= Records.CAPACITY && Possible(sends, longest) ==>
      !TooMany(Run(Limit(Aes128Gcm), Start(before), sends).most)
  }

  /** The counting loop keeps every AES-GCM key below the limit of the standard, over unboundedly many sends,
      exactly as long as no single send makes more than 15337895 records. */
  lemma CountingIsSafeIff(longest: nat)
    ensures SafeFor(longest) <==> Pieces(longest) <= 15337895
  {
    var limit := Limit(Aes128Gcm);
    if Pieces(longest) <= 15337895 {
      forall before: nat, sends: seq<Send> | before <= Records.CAPACITY && Possible(sends, longest)
        ensures !TooMany(Run(limit, Start(before), sends).most)
      {
        RunStaysBelow(limit, before, sends, longest);
        TooManyFrom(Run(limit, Start(before), sends).most);
      }
    } else {
      var first, second := Send(16384 * (limit - 1), limit - 1), Send(longest, Pieces(longest));
      var sends := [first, second];
      assert Possible(sends, longest);
      assert sends[..1] == [first] && [first][..0] == [];
      assert Run(limit, Start(64), [first]) == Counter(limit - 1, 64 + limit - 1, 64 + limit - 1);
      assert Run(limit, Start(64), sends).most == 64 + limit - 1 + Pieces(longest);
      TooManyFrom(64 + limit - 1 + Pieces(longest));
      assert !SafeFor(longest);
    }
  }

  /** A send of at most 2^31 octets, more than one system call takes, is far below that. */
  lemma TwoGigabytesAreSafe(longest: nat)
    requires longest <= TWO_31
    ensures SafeFor(longest)
  {
    CountingIsSafeIff(longest);
  }

  /** The number a blob gives the kernel is where the count of its key starts: in every reachable world, from the
      install on, a caller that counts keeps every AES-GCM key below the standard's limit. */
  lemma CountingFromTheHandover(kdf: Kdf, session: Session, w: World, server: bool, sends: seq<Send>, longest: nat)
    requires session.Valid() && Reachable(kdf, session, w) && Allowed(session, w, Move(server, Install(X.Tx)))
    requires w.server.ex.Valid() && w.client.ex.Valid()
    requires Possible(sends, longest) && Pieces(longest) <= 15337895
    ensures var before := Handover.Side(Moved(kdf, w, Move(server, Install(X.Tx))), server).tx.next;
            before <= Records.CAPACITY && !TooMany(Run(Limit(Aes128Gcm), Start(before), sends).most)
  {
    Handover.KernelGoesOnAtK(kdf, session, w, server, X.Tx);
    CountingIsSafeIff(longest);
  }
}
