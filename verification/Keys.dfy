/** The keys object: the default context, the named ones, and the settings every one of them follows. */
module Keys {
  import opened Bytes
  import opened Alpn
  import Names

  /** What a context carries of these settings. */
  class SslCtx {
    var suites: string
    var callback: bool        // the ALPN callback is set, with the keys object as its argument
    var protos: seq<byte>     // what a ClientHello carries

    /** A new context has the order of suites chosen for this machine. */
    constructor (standard: string)
      ensures suites == standard && !callback && protos == []
    {
      suites, callback, protos := standard, false, [];
    }
  }

  datatype Named = Named(host: string, ctx: SslCtx)

  function Hosts(named: seq<Named>): (r: seq<string>)
    ensures |r| == |named| && forall i :: 0 <= i < |named| ==> r[i] == named[i].host
  {
    seq(|named|, i requires 0 <= i < |named| => named[i].host)
  }

  lemma StaysDistinct(named: seq<Named>, host: string)
    requires Names.Distinct(Hosts(named)) && forall i :: 0 <= i < |named| ==> !Names.OnlyCaseDiffers(named[i].host, host)
    ensures Names.Distinct(Hosts(named) + [host])
  {
    forall i | 0 <= i < |named| ensures !Names.Same(Hosts(named)[i], host) {
      Names.SameIff(named[i].host, host);
    }
  }

  /** The settings as a caller sees them: suites, protocols in order of preference, names in order of adding. */
  datatype Config = Config(suites: string, protocols: seq<Name>, hosts: seq<string>)

  datatype Setting = Ciphers(list: string) | Protocols(names: seq<Name>) | Certificate(host: string)

  /** An accepted call. */
  function Set(c: Config, s: Setting): Config {
    match s
    case Ciphers(list) => c.(suites := list)
    case Protocols(names) => c.(protocols := names)
    case Certificate(host) => c.(hosts := c.hosts + [host])
  }

  function SetAll(c: Config, settings: seq<Setting>): Config {
    if settings == [] then c else Set(SetAll(c, settings[..|settings| - 1]), settings[|settings| - 1])
  }

  function LastCiphers(first: string, settings: seq<Setting>): string {
    if settings == [] then first
    else match settings[|settings| - 1]
      case Ciphers(list) => list
      case _ => LastCiphers(first, settings[..|settings| - 1])
  }

  function LastProtocols(first: seq<Name>, settings: seq<Setting>): seq<Name> {
    if settings == [] then first
    else match settings[|settings| - 1]
      case Protocols(names) => names
      case _ => LastProtocols(first, settings[..|settings| - 1])
  }

  function Added(settings: seq<Setting>): seq<string> {
    if settings == [] then []
    else Added(settings[..|settings| - 1]) + match settings[|settings| - 1] case Certificate(host) => [host] case _ => []
  }

  /** The order of calls of different kinds does not matter: after any accepted calls suites and protocols are
      those of the last call of their kind, and the names are the added ones in their own order. */
  lemma {:induction false} LastOfEachKind(c: Config, settings: seq<Setting>)
    ensures SetAll(c, settings)
         == Config(LastCiphers(c.suites, settings), LastProtocols(c.protocols, settings), c.hosts + Added(settings))
  {
    if settings == [] {
      assert c.hosts + [] == c.hosts;
    } else {
      LastOfEachKind(c, settings[..|settings| - 1]);
      match settings[|settings| - 1] {
        case Certificate(host) =>
          assert c.hosts + (Added(settings[..|settings| - 1]) + [host]) == c.hosts + Added(settings[..|settings| - 1]) + [host];
        case _ =>
          assert Added(settings[..|settings| - 1]) + [] == Added(settings[..|settings| - 1]);
      }
    }
  }

  /** The calls that were accepted, of all that were made. */
  function Accepted(settings: seq<Setting>, answers: seq<bool>): seq<Setting>
    requires |answers| == |settings|
  {
    if settings == [] then []
    else
      var k := |settings| - 1;
      Accepted(settings[..k], answers[..k]) + if answers[k] then [settings[k]] else []
  }

  /** The last list of protocols that was given was accepted, or none was and all was well before. */
  predicate Mended(before: bool, settings: seq<Setting>, answers: seq<bool>)
    requires |answers| == |settings|
  {
    if settings == [] then before
    else
      var k := |settings| - 1;
      if settings[k].Protocols? then answers[k] else Mended(before, settings[..k], answers[..k])
  }

  lemma OneMore(c: Config, settings: seq<Setting>, answers: seq<bool>)
    requires 0 < |settings| == |answers|
    ensures var k := |settings| - 1;
            var was := SetAll(c, Accepted(settings[..k], answers[..k]));
            SetAll(c, Accepted(settings, answers)) == if answers[k] then Set(was, settings[k]) else was
  {
    var k := |settings| - 1;
    var accepted := Accepted(settings[..k], answers[..k]);
    assert (accepted + [settings[k]])[..|accepted|] == accepted && accepted + [] == accepted;
  }

  class KtlsKeys {
    ghost var protocols: seq<Name>       // of the last accepted list
    const accepts: string -> bool        // OpenSSL's verdict on a list of suites
    const standard: string
    const ctx: SslCtx
    const alpn: array<byte>
    var alpnLen: nat
    var named: seq<Named>
    var suites: string                   // empty while nobody asked

    ghost function Contexts(): set<SslCtx>
      reads this`named
    {
      {ctx} + set n | n in named :: n.ctx
    }

    /** Every context, the default one and the named ones, offers the suites the settings say. */
    ghost predicate SuitesAgree()
      reads this`named, this`suites, Contexts()`suites
    {
      forall c :: c in Contexts() ==> c.suites == (if suites == "" then standard else suites)
    }

    /** A context offers the protocols the settings say. */
    ghost predicate Offers(c: SslCtx)
      reads this`protocols, c`protos, c`callback
    {
      c.protos == Encode(protocols) && (protocols != [] ==> c.callback)
    }

    ghost predicate AlpnAgrees()
      reads this`named, this`protocols, Contexts()`protos, Contexts()`callback
    {
      forall c :: c in Contexts() ==> Offers(c)
    }

    /** Every context calls back for a choice as long as there is a list. */
    ghost predicate CallsBack()
      reads this`named, this`alpnLen, Contexts()`callback
    {
      alpnLen != 0 ==> forall c :: c in Contexts() ==> c.callback
    }

    /** Every context offers what the settings say. */
    ghost predicate Agree()
      reads this`named, this`suites, this`protocols, Contexts()
    {
      SuitesAgree() && AlpnAgrees()
    }

    ghost predicate Valid()
      reads this
    {
      && alpn.Length == CAP && alpnLen == |Encode(protocols)| <= CAP && WellFormed(protocols)
      && (suites != "" ==> accepts(suites))
      && Names.Distinct(Hosts(named))
    }

    /** The list the callback reads is the list the contexts were given. A refused list can end this: it
        may have been written in part. */
    ghost predicate Intact()
      reads this`alpnLen, this`protocols, alpn
    {
      alpn.Length == CAP && alpnLen <= CAP && alpn[..alpnLen] == Encode(protocols)
    }

    ghost function View(): Config
      reads this`suites, this`protocols, this`named
    {
      Config(if suites == "" then standard else suites, protocols, Hosts(named))
    }

    constructor (accepts: string -> bool, standard: string)
      ensures Valid() && Agree() && CallsBack() && Intact() && fresh(ctx) && fresh(alpn) && View() == Config(standard, [], [])
      ensures this.accepts == accepts && this.standard == standard
    {
      this.accepts, this.standard := accepts, standard;
      ctx := new SslCtx(standard);
      alpn := new byte[CAP](_ => 0);
      alpnLen, named, suites, protocols := 0, [], "", [];
    }

    /** All contexts get the list, or the call is refused and nothing changes. */
    method SetCiphers(list: string) returns (ok: bool)
      requires Valid()
      modifies this`suites, Contexts()`suites
      ensures Valid() && (SuitesAgree() <==> ok || old(SuitesAgree()))
      ensures (AlpnAgrees() <==> old(AlpnAgrees())) && (Intact() <==> old(Intact())) && named == old(named)
      ensures CallsBack() <==> old(CallsBack())
      ensures ok == (0 < |list| < 256 && accepts(list))
      ensures View() == if ok then Set(old(View()), Ciphers(list)) else old(View())
    {
      if |list| == 0 || |list| >= CAP || !accepts(list) {
        return false;
      }
      suites := list;
      SpreadSuites();
      return true;
    }

    /** Gives every context the suites in force. */
    method SpreadSuites()
      requires suites != ""
      modifies Contexts()`suites
      ensures SuitesAgree() && (AlpnAgrees() <==> old(AlpnAgrees())) && (CallsBack() <==> old(CallsBack()))
    {
      ctx.suites := suites;
      var i := 0;
      while i < |named|
        invariant 0 <= i <= |named| && ctx.suites == suites
        invariant forall j :: 0 <= j < i ==> named[j].ctx.suites == suites
      {
        named[i].ctx.suites := suites;
        i := i + 1;
      }
    }

    /** Writes the names over the front of the buffer until one is refused. */
    method WriteList(list: seq<Name>) returns (ok: bool, n: nat)
      requires alpn.Length == CAP
      modifies alpn
      ensures var k := Fitting(list, 0); ok == (k == |list|) && n == |Encode(list[..k])| <= CAP
      ensures alpn[..n] == Encode(list[..Fitting(list, 0)]) && alpn[n..] == old(alpn[n..])
    {
      ghost var before := alpn[..];
      n := 0;
      var i := 0;
      while i < |list|
        invariant 0 <= i <= |list| && n == |Encode(list[..i])| <= CAP
        invariant Fitting(list, i) == Fitting(list, 0)
        invariant alpn[..n] == Encode(list[..i]) && alpn[n..] == before[n..]
      {
        var l := |list[i]|;
        if l == 0 || l > 255 || n + 1 + l > CAP {
          return false, n;
        }
        EncodePrefixGrows(list, i);
        WriteName(n, list[i], Encode(list[..i]), before);
        n := n + 1 + l;
        i := i + 1;
      }
      ok := true;
    }

    /** Writes one name behind its length at `at`. */
    method WriteName(at: nat, name: Name, ghost front: seq<byte>, ghost before: seq<byte>)
      requires alpn.Length == |before| && |name| <= 255 && at + 1 + |name| <= |before|
      requires alpn[..at] == front && alpn[at..] == before[at..]
      modifies alpn
      ensures alpn[..at + 1 + |name|] == front + [|name| % 256] + name
      ensures alpn[at + 1 + |name|..] == before[at + 1 + |name|..]
    {
      alpn[at] := |name|;
      forall j | 0 <= j < |name| {
        alpn[at + 1 + j] := name[j];
      }
      assert alpn[..at] == front && alpn[at + 1..at + 1 + |name|] == name;
      assert alpn[..at + 1 + |name|] == alpn[..at] + [alpn[at]] + alpn[at + 1..at + 1 + |name|];
      forall j | at + 1 + |name| <= j < |before| ensures alpn[j] == before[j] {
        assert before[at..][j - at] == before[j] == old(alpn[at..])[j - at];
      }
    }

    /** All contexts get the list and the callback. A refused list leaves every setting, but the names before
        the refused one stay written over the front of the buffer. */
    method SetAlpn(list: seq<Name>) returns (ok: bool)
      requires Valid()
      modifies this`alpnLen, this`protocols, alpn, Contexts()`callback, Contexts()`protos
      ensures Valid() && (SuitesAgree() <==> old(SuitesAgree())) && named == old(named)
      ensures ok == (WellFormed(list) && |Encode(list)| <= 256)
      ensures View() == if ok then Set(old(View()), Protocols(list)) else old(View())
      ensures ok ==> AlpnAgrees() && CallsBack() && Intact()
      ensures !ok ==> (AlpnAgrees() <==> old(AlpnAgrees())) && (CallsBack() <==> old(CallsBack()))
      ensures !ok ==> Leaves(Encode(list[..Fitting(list, 0)]), Encode(protocols), old(alpn[..]), alpn[..])
      ensures !ok && old(Intact()) ==> (Intact() <==> AgreeSoFar(Encode(list[..Fitting(list, 0)]), Encode(protocols)))
    {
      var n;
      ok, n := TryList(list);
      if ok {
        Accept(list, n);
      }
    }

    /** What writing a list makes of the buffer. */
    method TryList(list: seq<Name>) returns (ok: bool, n: nat)
      requires Valid()
      modifies alpn
      ensures (SuitesAgree() <==> old(SuitesAgree())) && (AlpnAgrees() <==> old(AlpnAgrees()))
      ensures CallsBack() <==> old(CallsBack())
      ensures ok == (WellFormed(list) && |Encode(list)| <= 256)
      ensures ok ==> n == |Encode(list)| && Encode(list) <= alpn[..]
      ensures !ok ==> Leaves(Encode(list[..Fitting(list, 0)]), Encode(protocols), old(alpn[..]), alpn[..])
      ensures !ok && old(Intact()) ==> (Intact() <==> AgreeSoFar(Encode(list[..Fitting(list, 0)]), Encode(protocols)))
    {
      AcceptedIff(list);
      IntactIsPrefix();
      ghost var before := alpn[..];
      ok, n := WriteKeeping(list);
      if ok {
        assert list[..|list|] == list;
      } else {
        IntactIsPrefix();
        RefusedLeaves(Encode(list[..Fitting(list, 0)]), Encode(protocols), before, alpn[..]);
        FittingWellFormed(list, 0);
        WalkLeft(list[..Fitting(list, 0)], Encode(protocols), before, alpn[..]);
      }
    }

    /** Writing touches no context. */
    method WriteKeeping(list: seq<Name>) returns (ok: bool, n: nat)
      requires alpn.Length == CAP
      modifies alpn
      ensures (SuitesAgree() <==> old(SuitesAgree())) && (AlpnAgrees() <==> old(AlpnAgrees()))
      ensures CallsBack() <==> old(CallsBack())
      ensures var k := Fitting(list, 0); ok == (k == |list|) && n == |Encode(list[..k])| <= CAP
      ensures alpn[..n] == Encode(list[..Fitting(list, 0)]) && alpn[n..] == old(alpn[n..])
    {
      ok, n := WriteList(list);
    }

    lemma IntactIsPrefix()
      requires Valid()
      ensures Intact() <==> Encode(protocols) <= alpn[..]
    {
    }

    method Accept(list: seq<Name>, n: nat)
      requires alpn.Length == CAP && n == |Encode(list)| <= CAP && Encode(list) <= alpn[..]
      modifies this`alpnLen, this`protocols, Contexts()`callback, Contexts()`protos
      ensures alpnLen == n && protocols == list && AlpnAgrees() && CallsBack() && Intact() && (SuitesAgree() <==> old(SuitesAgree()))
    {
      alpnLen, protocols := n, list;
      Spread(n);
    }

    /** Gives every context the callback and the first n octets of the buffer. */
    method Spread(n: nat)
      requires n <= alpn.Length
      modifies Contexts()`callback, Contexts()`protos
      ensures forall c :: c in Contexts() ==> c.callback && c.protos == alpn[..n]
    {
      ctx.callback, ctx.protos := true, alpn[..n];
      var i := 0;
      while i < |named|
        invariant 0 <= i <= |named|
        invariant ctx.callback && ctx.protos == alpn[..n]
        invariant forall j :: 0 <= j < i ==> named[j].ctx.callback && named[j].ctx.protos == alpn[..n]
      {
        named[i].ctx.callback, named[i].ctx.protos := true, alpn[..n];
        i := i + 1;
      }
    }

    /** Gives a context the suites and the list. OpenSSL checks the list it is given. */
    method Follow(c: SslCtx) returns (ok: bool)
      requires Valid() && c.suites == standard && !c.callback && c.protos == []
      modifies c
      ensures ok == Decode(alpn[..alpnLen]).Some?
      ensures c.suites == (if suites == "" then standard else suites)
      ensures ok ==> (Offers(c) <==> Intact()) && (alpnLen != 0 ==> c.callback)
    {
      if suites != "" {
        c.suites := suites;
      }
      if alpnLen != 0 {
        c.callback := true;
        if Decode(alpn[..alpnLen]).None? {
          return false;
        }
        c.protos := alpn[..alpnLen];
      }
      ok := true;
    }

    /** A new context that follows the settings. */
    method Prepare() returns (c: SslCtx, ok: bool)
      requires Valid()
      ensures fresh(c) && ok == Decode(alpn[..alpnLen]).Some?
      ensures c.suites == (if suites == "" then standard else suites)
      ensures ok ==> (Offers(c) <==> Intact()) && (alpnLen != 0 ==> c.callback)
      ensures (SuitesAgree() <==> old(SuitesAgree())) && (AlpnAgrees() <==> old(AlpnAgrees()))
      ensures CallsBack() <==> old(CallsBack())
    {
      c := new SslCtx(standard);
      ok := Follow(c);
    }

    method Known(host: string) returns (known: bool)
      ensures known <==> exists i :: 0 <= i < |named| && Names.OnlyCaseDiffers(named[i].host, host)
    {
      var i := 0;
      while i < |named|
        invariant 0 <= i <= |named|
        invariant forall j :: 0 <= j < i ==> !Names.OnlyCaseDiffers(named[j].host, host)
      {
        Names.SameIff(named[i].host, host);
        if Names.Same(named[i].host, host) {
          return true;
        }
        i := i + 1;
      }
      known := false;
    }

    /** Adds a named context behind the others, unless the name is empty, too long or there already, or the
        pair is not usable. Contexts that offered the same protocols go on doing so exactly when the list in
        the buffer is still the one the others were given. */
    method AddCertificate(host: string, usable: bool) returns (ok: bool)
      requires Valid()
      modifies this`named
      ensures Valid() && (SuitesAgree() <==> old(SuitesAgree()))
      ensures ok == (0 < |host| < 256 && usable && Decode(alpn[..alpnLen]).Some?
                     && forall i :: 0 <= i < |old(named)| ==> !Names.OnlyCaseDiffers(old(named)[i].host, host))
      ensures View() == if ok then Set(old(View()), Certificate(host)) else old(View())
      ensures ok ==> |named| == |old(named)| + 1 && named[..|old(named)|] == old(named) && fresh(named[|old(named)|].ctx)
      ensures !ok ==> named == old(named)
      ensures (AlpnAgrees() <==> old(AlpnAgrees()) && (ok ==> Intact())) && (CallsBack() <==> old(CallsBack()))
    {
      var c;
      c, ok := Consider(host, usable);
      if ok {
        Append(host, c);
      }
    }

    /** A context for a name that can be added. */
    method Consider(host: string, usable: bool) returns (c: SslCtx, ok: bool)
      requires Valid()
      ensures ok == (0 < |host| < 256 && usable && Decode(alpn[..alpnLen]).Some?
                     && forall i :: 0 <= i < |named| ==> !Names.OnlyCaseDiffers(named[i].host, host))
      ensures ok ==> fresh(c) && c.suites == (if suites == "" then standard else suites)
      ensures ok ==> (Offers(c) <==> Intact()) && (alpnLen != 0 ==> c.callback)
      ensures (SuitesAgree() <==> old(SuitesAgree())) && (AlpnAgrees() <==> old(AlpnAgrees()))
      ensures CallsBack() <==> old(CallsBack())
    {
      c, ok := ctx, false;
      if |host| == 0 || |host| >= CAP {
        return;
      }
      var known := Known(host);
      if known || !usable {
        return;
      }
      c, ok := Prepare();
    }

    method Append(host: string, c: SslCtx)
      requires Valid() && c.suites == (if suites == "" then standard else suites) && (alpnLen != 0 ==> c.callback)
      requires forall i :: 0 <= i < |named| ==> !Names.OnlyCaseDiffers(named[i].host, host)
      modifies this`named
      ensures Valid() && named == old(named) + [Named(host, c)]
      ensures View() == Set(old(View()), Certificate(host))
      ensures SuitesAgree() <==> old(SuitesAgree())
      ensures (AlpnAgrees() <==> old(AlpnAgrees()) && Offers(c)) && (CallsBack() <==> old(CallsBack()))
    {
      StaysDistinct(named, host);
      named := named + [Named(host, c)];
      assert Hosts(named) == old(Hosts(named)) + [host];
      assert Contexts() == old(Contexts()) + {c};
    }

    /** One call of any kind; a certificate's pair is usable or not. */
    method Apply(s: Setting, usable: string -> bool) returns (ok: bool)
      requires Valid() && SuitesAgree() && CallsBack()
      modifies this, alpn, Contexts()
      ensures Valid() && SuitesAgree() && CallsBack()
      ensures fresh(Contexts() - old(Contexts()))
      ensures View() == if ok then Set(old(View()), s) else old(View())
      ensures (if s.Protocols? then ok else old(AlpnAgrees() && Intact())) ==> AlpnAgrees() && Intact()
    {
      match s {
        case Ciphers(list) => ok := SetCiphers(list);
        case Protocols(names) => ok := SetAlpn(names);
        case Certificate(host) => ok := AddCertificate(host, usable(host));
      }
    }

    /** Any calls in any order, accepted or refused. The suites reach every context, the settings are those of
        the last accepted call of each kind, every context calls back, and, unless the last list of protocols was
        refused, every context offers the same list and the buffer holds it: an accepted list repairs what a
        refused one damaged. */
    method Configure(settings: seq<Setting>, usable: string -> bool) returns (answers: seq<bool>)
      requires Valid() && SuitesAgree() && CallsBack()
      modifies this, alpn, Contexts()
      ensures |answers| == |settings| && Valid() && SuitesAgree() && CallsBack()
      ensures var was, accepted := old(View()), Accepted(settings, answers);
              View() == Config(LastCiphers(was.suites, accepted), LastProtocols(was.protocols, accepted),
                               was.hosts + Added(accepted))
      ensures Mended(old(AlpnAgrees() && Intact()), settings, answers) ==> Agree() && Intact()
    {
      answers := ApplyAll(settings, usable);
      LastOfEachKind(old(View()), Accepted(settings, answers));
    }

    method ApplyAll(settings: seq<Setting>, usable: string -> bool) returns (answers: seq<bool>)
      requires Valid() && SuitesAgree() && CallsBack()
      modifies this, alpn, Contexts()
      ensures |answers| == |settings| && Valid() && SuitesAgree() && CallsBack() && fresh(Contexts() - old(Contexts()))
      ensures View() == SetAll(old(View()), Accepted(settings, answers))
      ensures Mended(old(AlpnAgrees() && Intact()), settings, answers) ==> AlpnAgrees() && Intact()
    {
      if settings == [] {
        return [];
      }
      var k := |settings| - 1;
      var before := ApplyAll(settings[..k], usable);
      var ok := Apply(settings[k], usable);
      answers := before + [ok];
      assert answers[..k] == before;
      OneMore(old(View()), settings, answers);
    }

    /** The protocol callback as OpenSSL calls it, with a list it has checked, on any buffer: the earliest of the
        names its walk meets that the peer offered, as a stretch of the peer's own list. */
    method AlpnPick(peer: seq<byte>) returns (v: Verdict)
      requires Valid() && Decode(peer).Some?
      ensures v == Picks(alpn[..], alpnLen, Decode(peer).value)
      ensures Means(v, peer, Visited(alpn[..], alpnLen), Cut(alpn[..], alpnLen), Decode(peer).value)
    {
      EncodeDecode(peer);
      v := PickFor(peer, Decode(peer).value);
      PicksMeans(alpn[..], alpnLen, Decode(peer).value);
    }

    /** The outer loop: the entries of the buffer one after another. */
    method PickFor(peer: seq<byte>, ghost theirs: seq<Name>) returns (v: Verdict)
      requires alpnLen <= alpn.Length && WellFormed(theirs) && Encode(theirs) == peer
      ensures v == Picks(alpn[..], alpnLen, theirs)
    {
      ghost var verdict := Picks(alpn[..], alpnLen, theirs);
      var rest, left: int := alpn[..], alpnLen;
      while left > 0
        invariant left <= |rest| && verdict == Picks(rest, left, theirs)
        decreases left
      {
        v := FindIn(peer, rest, theirs);
        var n: nat := rest[0];
        if v != Nothing || |rest| < 1 + n {
          return v;
        }
        rest, left := rest[1 + n..], left - 1 - n;
      }
      v := Nothing;
    }

    /** The inner loop: where the peer's list has the name at the front of `rest`. An entry that ends behind the
        buffer is skipped as long as no name on offer has its length. */
    method FindIn(peer: seq<byte>, rest: seq<byte>, ghost theirs: seq<Name>) returns (v: Verdict)
      requires rest != [] && WellFormed(theirs) && Encode(theirs) == peer
      ensures v == Seek(rest, theirs, 0)
    {
      var j, n: nat := 0, rest[0];
      ghost var m := 0;
      assert theirs[0..] == theirs;
      while j < |peer|
        invariant 0 <= m <= |theirs| && j == |Encode(theirs[..m])| <= |peer|
        invariant Seek(rest, theirs, 0) == Seek(rest, theirs[m..], j)
        decreases |peer| - j
      {
        KthName(theirs, m);
        assert theirs[m..][0] == theirs[m] && theirs[m..][1..] == theirs[m + 1..];
        var l: nat := peer[j];
        if l == n {
          if |rest| < 1 + n {
            return Behind;
          }
          if peer[j + 1..j + 1 + l] == rest[1..1 + n] {
            return Chosen(j + 1, n);
          }
        }
        j := j + 1 + l;
        m := m + 1;
      }
      v := Nothing;
      if m < |theirs| {
        KthName(theirs, m);
      }
    }

    /** What a context answers to a peer's list: the same for all of them, whatever a refused list left in the
        buffer, and the best choice when the buffer is intact. */
    method Answer(c: SslCtx, peer: seq<byte>) returns (v: Verdict)
      requires Valid() && CallsBack() && Decode(peer).Some? && c in Contexts()
      ensures v == Picks(alpn[..], alpnLen, Decode(peer).value)
      ensures Intact() ==> Means(v, peer, protocols, None, Decode(peer).value)
    {
      if Intact() {
        VisitsItsNames(protocols, alpn[..], alpnLen);
      }
      if c.callback {
        v := AlpnPick(peer);
      } else {
        EncodeDecode(peer);
        PicksMeans(alpn[..], alpnLen, Decode(peer).value);
        v := Nothing;
      }
    }

    /** The context a server name gets: the first added one that matches, and the default one when there is
        no name or none matches. */
    method NamePick(name: Option<string>) returns (c: SslCtx)
      requires Valid()
      ensures c in Contexts()
      ensures name.None? ==> c == ctx
      ensures name.Some? ==> c == match Names.FirstMatch(Hosts(named), name.value)
                                  case Some(i) => named[i].ctx
                                  case None => ctx
    {
      if name.None? {
        return ctx;
      }
      var i := 0;
      while i < |named|
        invariant 0 <= i <= |named|
        invariant forall j :: 0 <= j < i ==> !Names.Matches(Hosts(named)[j], name.value)
      {
        if Names.Matches(named[i].host, name.value) {
          return named[i].ctx;
        }
        i := i + 1;
      }
      c := ctx;
    }
  }

  // ---- the walk through the buffer ----

  /** What the callback comes to: a stretch of the peer's list, no choice, or a comparison with octets behind the
      buffer. */
  datatype Verdict = Chosen(at: nat, n: nat) | Nothing | Behind

  /** The length of the entry, of those that start in the first `len` octets, that ends behind the buffer. */
  function Cut(s: seq<byte>, len: int): Option<nat>
    requires len <= |s|
    decreases len
  {
    if len <= 0 then None
    else
      var n: nat := s[0];
      if |s| < 1 + n then Some(n) else Cut(s[1 + n..], len - 1 - n)
  }

  /** Every entry that starts in the first `len` octets ends inside the buffer. */
  predicate StaysInside(s: seq<byte>, len: int)
    requires len <= |s|
  {
    Cut(s, len).None?
  }

  /** The names behind their lengths that a walk through the first `len` octets meets. */
  function Visited(s: seq<byte>, len: int): seq<Name>
    requires len <= |s|
    decreases len
  {
    if len <= 0 then []
    else
      var n: nat := s[0];
      if |s| < 1 + n then [] else [s[1..1 + n]] + Visited(s[1 + n..], len - 1 - n)
  }

  /** One entry against the peer's names, the first of which stands at `at`. */
  function Seek(rest: seq<byte>, theirs: seq<Name>, at: nat): Verdict
    requires rest != []
  {
    if theirs == [] then Nothing
    else
      var n: nat := rest[0];
      if |theirs[0]| == n && |rest| < 1 + n then Behind
      else if |theirs[0]| == n && theirs[0] == rest[1..1 + n] then Chosen(at + 1, n)
      else Seek(rest, theirs[1..], at + 1 + |theirs[0]|)
  }

  function Picks(s: seq<byte>, len: int, theirs: seq<Name>): Verdict
    requires len <= |s|
    decreases len
  {
    if len <= 0 then Nothing
    else
      var v, n: nat := Seek(s, theirs, 0), s[0];
      if v != Nothing || |s| < 1 + n then v else Picks(s[1 + n..], len - 1 - n, theirs)
  }

  /** The peer's list has the name at `at`, behind its length. */
  predicate Placed(peer: seq<byte>, at: nat, name: Name) {
    1 <= at && at + |name| <= |peer| && peer[at - 1] == |name| && peer[at..at + |name|] == name
  }

  ghost predicate OffersLength(theirs: seq<Name>, n: nat) {
    exists m :: 0 <= m < |theirs| && |theirs[m]| == n
  }

  /** A verdict on our names and, behind them, an entry that does not end: the choice, where the peer's list has it;
      else, if a name on offer has the length of that entry, octets behind the buffer; else nothing. */
  ghost predicate Means(v: Verdict, peer: seq<byte>, ours: seq<Name>, cut: Option<nat>, theirs: seq<Name>) {
    match v
    case Chosen(at, n) => Choice(ours, theirs).Some? && |Choice(ours, theirs).value| == n && Placed(peer, at, Choice(ours, theirs).value)
    case Behind => Choice(ours, theirs).None? && cut.Some? && OffersLength(theirs, cut.value)
    case Nothing => Choice(ours, theirs).None? && (cut.Some? ==> !OffersLength(theirs, cut.value))
  }

  ghost predicate SeekMeans(v: Verdict, rest: seq<byte>, peer: seq<byte>, theirs: seq<Name>)
    requires rest != []
  {
    var n: nat := rest[0];
    if |rest| < 1 + n then
      v == if OffersLength(theirs, n) then Behind else Nothing
    else if rest[1..1 + n] in theirs then
      v.Chosen? && v.n == n && Placed(peer, v.at, rest[1..1 + n])
    else
      v == Nothing
  }

  lemma {:induction false} SeekFinds(rest: seq<byte>, front: seq<byte>, theirs: seq<Name>)
    requires rest != [] && WellFormed(theirs)
    ensures SeekMeans(Seek(rest, theirs, |front|), rest, front + Encode(theirs), theirs)
    decreases |theirs|
  {
    if theirs != [] {
      var name, others := theirs[0], theirs[1..];
      var longer := front + ([|name|] + name);
      assert theirs == [name] + others;
      EncodeCons(name, others);
      assert longer + Encode(others) == front + Encode(theirs);
      SeekFinds(rest, longer, others);
      AmongFirst(name, others, rest[0]);
      PlacedAtFront(front, name, Encode(others));
    }
  }

  lemma PlacedAtFront(front: seq<byte>, name: Name, behind: seq<byte>)
    requires |name| <= 255
    ensures Placed(front + ([|name|] + name + behind), |front| + 1, name)
  {
    var peer := front + ([|name|] + name + behind);
    assert peer[|front|] == |name| && peer[|front| + 1..|front| + 1 + |name|] == name;
  }

  lemma AmongFirst(name: Name, others: seq<Name>, n: nat)
    ensures OffersLength([name] + others, n) <==> |name| == n || OffersLength(others, n)
  {
    var all := [name] + others;
    assert all[0] == name && forall m :: 0 <= m < |others| ==> all[m + 1] == others[m];
    if OffersLength(others, n) {
      var m :| 0 <= m < |others| && |others[m]| == n;
      assert |all[m + 1]| == n;
    }
    if OffersLength(all, n) {
      var m :| 0 <= m < |all| && |all[m]| == n;
      assert m > 0 ==> |others[m - 1]| == n;
    }
  }

  /** The walk comes to the choice among the names it meets, and only without one to what ends behind the buffer. */
  lemma {:induction false} PicksMeans(s: seq<byte>, len: int, theirs: seq<Name>)
    requires len <= |s| && WellFormed(theirs)
    ensures Means(Picks(s, len, theirs), Encode(theirs), Visited(s, len), Cut(s, len), theirs)
    decreases len
  {
    if len > 0 {
      SeekFinds(s, [], theirs);
      assert [] + Encode(theirs) == Encode(theirs);
      if |s| >= 1 + s[0] as int {
        PicksMeans(s[1 + s[0] as int..], len - 1 - s[0], theirs);
      }
      OneEntryMeans(s, len, theirs, Encode(theirs));
    }
  }

  lemma OneEntryMeans(s: seq<byte>, len: int, theirs: seq<Name>, peer: seq<byte>)
    requires 0 < len <= |s| && SeekMeans(Seek(s, theirs, 0), s, peer, theirs)
    requires var n: nat := s[0];
             1 + n <= |s| ==> var rest, left := s[1 + n..], len - 1 - n;
                              Means(Picks(rest, left, theirs), peer, Visited(rest, left), Cut(rest, left), theirs)
    ensures Means(Picks(s, len, theirs), peer, Visited(s, len), Cut(s, len), theirs)
  {
    var n: nat := s[0];
    if 1 + n <= |s| {
      var name, rest, left := s[1..1 + n], s[1 + n..], len - 1 - n;
      EntryMet(s, len);
      ChoiceCons(name, Visited(rest, left), theirs);
      var v := Seek(s, theirs, 0);
      assert Picks(s, len, theirs) == if v != Nothing then v else Picks(rest, left, theirs);
    }
  }

  lemma ChoiceCons(name: Name, rest: seq<Name>, theirs: seq<Name>)
    ensures Choice([name] + rest, theirs) == if name in theirs then Some(name) else Choice(rest, theirs)
  {
    assert ([name] + rest)[1..] == rest;
  }

  /** A walk that starts in front of a well-formed list comes out behind it. */
  lemma {:induction false} WalkPast(names: seq<Name>, behind: seq<byte>, len: int)
    requires WellFormed(names) && len <= |Encode(names)| + |behind|
    ensures Cut(Encode(names) + behind, len)
         == if len <= |Encode(names)| then None else Cut(behind, len - |Encode(names)|)
    decreases |names|
  {
    if names == [] {
      assert Encode(names) + behind == behind;
    } else if len > 0 {
      var name, rest := names[0], names[1..];
      assert names == [name] + rest;
      EntryAndRest(name, rest, behind);
      CutSkips(name, Encode(rest) + behind, len);
      WalkPast(rest, behind, len - 1 - |name|);
    }
  }

  lemma EntryAndRest(name: Name, rest: seq<Name>, behind: seq<byte>)
    requires 1 <= |name| <= 255
    ensures |Encode([name] + rest)| == 1 + |name| + |Encode(rest)|
    ensures Encode([name] + rest) + behind == [|name|] + name + (Encode(rest) + behind)
  {
    EncodeCons(name, rest);
    assert [|name|] + name + Encode(rest) + behind == [|name|] + name + (Encode(rest) + behind);
  }

  lemma CutSkips(name: Name, rest: seq<byte>, len: int)
    requires |name| <= 255 && 0 < len <= 1 + |name| + |rest|
    ensures Cut([|name|] + name + rest, len) == Cut(rest, len - 1 - |name|)
  {
    var s := [|name|] + name + rest;
    assert s[0] == |name| && s[1 + |name|..] == rest;
  }

  /** Only the octets in front of `len` decide where a walk goes. */
  lemma {:induction false} FrontDecides(s: seq<byte>, t: seq<byte>, len: int)
    requires len <= |s| == |t| && forall i :: 0 <= i < len ==> s[i] == t[i]
    ensures Cut(s, len) == Cut(t, len)
    decreases len
  {
    if len > 0 {
      var n: nat := s[0];
      if 1 + n <= |s| {
        FrontDecides(s[1 + n..], t[1 + n..], len - 1 - n);
      }
    }
  }

  /** After `part` was written over the front of `kept`: the walk comes out of `part` where it did before, or runs on
      from there through what is left of `kept`. */
  predicate Contained(part: seq<byte>, kept: seq<byte>)
    requires |kept| <= CAP
  {
    |kept| <= |part| || StaysInside(kept[|part|..] + seq(CAP - |kept|, _ => 0), |kept| - |part|)
  }

  /** What a refused list leaves in the buffer: the names before the refused one over the front. A walk through it stays inside
      exactly when it does so behind them, which the two lists decide if the old one was intact. */
  ghost predicate Leaves(part: seq<byte>, kept: seq<byte>, before: seq<byte>, after: seq<byte>) {
    && |part| <= CAP && |kept| <= CAP && |before| == CAP && after == part + before[|part|..]
    && (StaysInside(after, |kept|) <==> |kept| <= |part| || StaysInside(before[|part|..], |kept| - |part|))
    && (kept <= before ==> (StaysInside(after, |kept|) <==> Contained(part, kept)))
  }

  lemma WalkLeft(written: seq<Name>, kept: seq<byte>, before: seq<byte>, after: seq<byte>)
    requires WellFormed(written) && |Encode(written)| <= CAP && |kept| <= CAP && |before| == CAP
    requires after == Encode(written) + before[|Encode(written)|..]
    ensures Leaves(Encode(written), kept, before, after)
  {
    var part := Encode(written);
    WalkPast(written, before[|part|..], |kept|);
    if kept <= before && |part| < |kept| {
      BehindDoesNotMatter(|part|, kept, before);
    }
  }

  lemma BehindDoesNotMatter(from: nat, kept: seq<byte>, before: seq<byte>)
    requires from < |kept| <= CAP == |before| && kept <= before
    ensures StaysInside(before[from..], |kept| - from) <==> StaysInside(kept[from..] + seq(CAP - |kept|, _ => 0), |kept| - from)
  {
    var left, padded := |kept| - from, kept[from..] + seq(CAP - |kept|, _ => 0);
    forall i | 0 <= i < left ensures before[from..][i] == padded[i] {
      assert before[from..][i] == before[from + i] == kept[from + i];
    }
    FrontDecides(before[from..], padded, left);
  }

  lemma {:induction false} FittingWellFormed(names: seq<Name>, k: nat)
    requires k <= |names| && WellFormed(names[..k])
    ensures WellFormed(names[..Fitting(names, k)])
    decreases |names| - k
  {
    if k < |names| && !Refused(names, k) {
      FittingWellFormed(names, k + 1);
    }
  }

  function Letters(n: nat): (s: seq<byte>)
    ensures |s| == n
  {
    seq(n, _ => 97)
  }

  lemma LettersRunOut(n: nat)
    requires n > 0
    ensures Cut(Letters(n), n) == if n < 98 then Some(97) else Cut(Letters(n - 98), n - 98)
  {
    if n >= 98 {
      assert Letters(n)[98..] == Letters(n - 98);
    }
  }

  /** A list of one name of 255 letters a is accepted; a refused one that starts with "b" is then written over its
      front, and a walk runs behind the buffer: its entries start at 0, 2, 100 and 198, and the last has 97 octets. */
  lemma ARefusalThatOverruns()
    ensures var long, b: Name := Letters(255), [98];
            && Fitting([long], 0) == 1 && Fitting([b, []], 0) == 1 && |Encode([long])| == CAP
            && !Contained(Encode([b]), Encode([long]))
  {
    var long, b: Name := Letters(255), [98];
    var ours: seq<Name>, refused: seq<Name> := [long], [b, []];
    assert ours[..0] == [] && refused[..0] == [] && refused[..1] == [b];
    EncodeCons(long, []);
    EncodeCons(b, []);
    assert [long] + [] == [long] && [b] + [] == [b];
    assert Encode([b]) == [1, 98];
    assert Encode([long])[2..] + seq(0, _ => 0) == Letters(254);
    LettersRunOut(254);
    LettersRunOut(156);
    LettersRunOut(58);
  }

  /** A walk through an encoded list meets its names and stays inside. */
  lemma {:induction false} VisitsItsNames(names: seq<Name>, s: seq<byte>, len: nat)
    requires WellFormed(names) && Encode(names) <= s && len == |Encode(names)|
    ensures StaysInside(s, len) && Visited(s, len) == names
  {
    if names != [] {
      var name, rest := names[0], names[1..];
      assert names == [name] + rest;
      FirstEntry(name, rest, s);
      VisitsItsNames(rest, s[1 + |name|..], len - 1 - |name|);
      EntryMet(s, len);
    }
  }

  lemma EntryMet(s: seq<byte>, len: int)
    requires 0 < len <= |s| && 1 + s[0] as int <= |s|
    ensures Cut(s, len) == Cut(s[1 + s[0] as int..], len - 1 - s[0])
    ensures Visited(s, len) == [s[1..1 + s[0] as int]] + Visited(s[1 + s[0] as int..], len - 1 - s[0])
  {
  }

  lemma FirstEntry(name: Name, rest: seq<Name>, s: seq<byte>)
    requires 1 <= |name| <= 255 && Encode([name] + rest) <= s
    ensures var n := |name|;
            && |Encode([name] + rest)| == 1 + n + |Encode(rest)| <= |s|
            && s[0] == n && s[1..1 + n] == name && Encode(rest) <= s[1 + n..]
  {
    var n, list := |name|, Encode([name] + rest);
    EncodeCons(name, rest);
    assert list[0] == n && list[1..1 + n] == name && list[1 + n..] == Encode(rest);
    assert s[..|list|][1..1 + n] == s[1..1 + n] && s[..|list|][1 + n..] == s[1 + n..][..|list| - 1 - n];
  }

  lemma KthName(names: seq<Name>, k: nat)
    requires WellFormed(names) && k <= |names|
    ensures k == |names| ==> |Encode(names[..k])| == |Encode(names)|
    ensures k < |names| ==>
              var at, s, n := |Encode(names[..k])|, Encode(names), |names[k]|;
              && at + 1 + n <= |s| && s[at] == n && s[at + 1..at + 1 + n] == names[k]
              && |Encode(names[..k + 1])| == at + 1 + n
  {
    if k == |names| {
      assert names[..k] == names;
    } else {
      EncodedAt(names, k);
    }
  }
}
