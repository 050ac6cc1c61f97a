/** The ACME client: nonces, signed posts, accounts, orders, challenges and the issuing of a certificate. */
module AcmeClient {
  import opened Wrappers
  import opened AcmeConduct
  import opened AcmeScript
  import opened AcmeTrace

  /** The account key; a broken key has no thumbprint. */
  datatype Key = Key(thumbprint: Option<string>)

  datatype Issuance = Issuance(pem: string, names: seq<string>)

  /**
   * Everything outside the client, any behaviour of it: the next answer is the next of script, and then all steps
   * fail.
   */
  class World {
    var script: seq<Answer>
    ghost var trace: seq<Event>

    constructor (script: seq<Answer>)
      ensures this.script == script && trace == []
    {
      this.script := script;
      trace := [];
    }

    ghost function Reply(): Option<Response>
      reads this
    {
      if Willing(script) then Some(script[0].response) else None
    }

    method Next() returns (a: Answer)
      modifies this`script
      ensures script == Later(old(script)) && a.Works? == Willing(old(script))
      ensures a.Works? ==> a == old(script)[0]
    {
      if script == [] {
        a := Fails;
      } else {
        a := script[0];
        script := script[1..];
      }
    }

    method Get(url: string) returns (reply: Option<Response>)
      modifies this
      ensures script == Later(old(script))
      ensures reply == old(Reply()) && trace == old(trace) + [Fetched(url, reply)]
    {
      var a := Next();
      reply := if a.Works? then Some(a.response) else None;
      trace := trace + [Fetched(url, reply)];
    }

    method Head(url: string) returns (reply: Option<Response>)
      modifies this
      ensures script == Later(old(script))
      ensures reply == old(Reply()) && trace == old(trace) + [Headed(url, reply)]
    {
      var a := Next();
      reply := if a.Works? then Some(a.response) else None;
      trace := trace + [Headed(url, reply)];
    }

    method Send(url: string, account: Account, nonce: string, payload: Payload) returns (reply: Option<Response>)
      modifies this
      ensures script == Later(old(script))
      ensures reply == old(Reply()) && trace == old(trace) + [Posted(url, account, nonce, payload, reply)]
    {
      var a := Next();
      reply := if a.Works? then Some(a.response) else None;
      trace := trace + [Posted(url, account, nonce, payload, reply)];
    }

    /** Signing leaves a mark only when it fails. */
    method Sign() returns (done: bool)
      modifies this
      ensures script == Later(old(script))
      ensures done == Willing(old(script)) && trace == if done then old(trace) else old(trace) + [Unsigned]
    {
      var a := Next();
      done := a.Works?;
      if !done { trace := trace + [Unsigned]; }
    }

    method Write(token: string, proof: Proof) returns (done: bool)
      modifies this
      ensures script == Later(old(script))
      ensures done == Willing(old(script)) && trace == old(trace) + [Wrote(token, proof, done)]
    {
      var a := Next();
      done := a.Works?;
      trace := trace + [Wrote(token, proof, done)];
    }

    /** Making the certificate key and its request. */
    method Prepare() returns (done: bool)
      modifies this
      ensures script == Later(old(script))
      ensures done == Willing(old(script)) && trace == old(trace) + [Prepared(done)]
    {
      var a := Next();
      done := a.Works?;
      trace := trace + [Prepared(done)];
    }
  }

  /** The events recorded since before. */
  ghost function Since(before: seq<Event>, now: seq<Event>): seq<Event>
    requires before <= now
  {
    now[|before|..]
  }

  class Client {
    const world: World
    const directory: Directory
    const key: Key
    var kid: Option<string>
    var nonce: Option<string>

    ghost predicate Valid()
      reads this, world
    {
      Balanced(world.trace, nonce)
    }

    constructor (world: World, directory: Directory, key: Key, nonce: Option<string>)
      ensures this.world == world && this.directory == directory && this.key == key
      ensures this.nonce == nonce && kid.None?
    {
      this.world, this.directory, this.key := world, directory, key;
      this.kid, this.nonce := None, nonce;
    }

    /** What is still to come. */
    ghost function Ahead(): Outlook
      reads this, world
    {
      Outlook(world.script, nonce.Some?)
    }

    function AccountRef(): Account
      reads this
    {
      if kid.Some? then Kid(kid.value) else Jwk
    }

    /** A held nonce is used up and costs no request; otherwise one HEAD fetches the nonce it returns. */
    method TakeNonce() returns (r: Result<string, Failure>)
      requires Valid()
      modifies world, this`nonce
      ensures nonce.None? && |world.script| <= |old(world.script)|
      ensures var s := Nonced(old(Ahead())); if s.None? then r.Err? else r.Ok? && world.script == s.value
      ensures r.Ok? ==> Balanced(world.trace, Some(r.value))
      ensures r.Err? ==> Valid()
      ensures old(nonce).Some? ==> r == Ok(old(nonce).value) && world.trace == old(world.trace)
      ensures old(nonce).None? ==> world.trace == old(world.trace) + [Headed(directory.newNonce, old(world.Reply()))]
      ensures old(nonce).None? && r.Ok? ==> old(world.Reply()).Some? && old(world.Reply()).value.nonce == Some(r.value)
      ensures old(nonce).None? && r.Err? ==>
        Explains(r.error, Last(world.trace)) && (r.error.Transport? || r.error.NoNonce?)
    {
      hide Balanced;
      Discard(world.trace, nonce);
      if nonce.Some? {
        r := Ok(nonce.value);
        nonce := None;
      } else {
        ghost var before := world.trace;
        var reply := world.Head(directory.newNonce);
        Record(before, Headed(directory.newNonce, reply));
        if reply.None? { return Err(Transport); }
        r := if reply.value.nonce.Some? then Ok(reply.value.nonce.value) else Err(NoNonce);
      }
    }

    /** One try at a signed request; the nonce of its answer, if any, is the one held next. */
    method Try(url: string, payload: Payload) returns (r: Result<Response, Failure>)
      requires Valid()
      modifies world, this`nonce
      ensures Valid() && old(world.trace) <= world.trace
      ensures TryRun(Since(old(world.trace), world.trace), url, AccountRef(), payload, r)
      ensures r.Ok? ==> nonce == r.value.nonce && |world.script| < |old(world.script)|
      ensures |world.script| <= |old(world.script)|
      ensures var t := Tried(old(Ahead()));
        if t.None? then r.Err? else r == Ok(t.value.value) && Ahead() == t.value.ahead
    {
      hide Balanced, TryRun, Explains, Willing;
      ghost var start := world.trace;
      var taken := TakeNonce();
      if taken.Err? {
        UnsentTry(Last(world.trace), url, AccountRef(), payload, taken.error);
        assert Since(start, world.trace) == [Last(world.trace)];
        return Err(taken.error);
      }
      ghost var held := world.trace;
      r := Spend(taken.value, url, payload, Since(start, held));
      assert Since(start, world.trace) == Since(start, held) + Since(held, world.trace);
    }

    /** Signs the request with a nonce taken out, and sends it. */
    method Spend(taken: string, url: string, payload: Payload, ghost head: seq<Event>)
      returns (r: Result<Response, Failure>)
      requires Balanced(world.trace, Some(taken)) && nonce.None?
      requires head == [] || (|head| == 1 && head[0].Headed? && head[0].reply.Some?)
      modifies world, this`nonce
      ensures Valid() && old(world.trace) <= world.trace
      ensures TryRun(head + Since(old(world.trace), world.trace), url, AccountRef(), payload, r)
      ensures r.Ok? ==> nonce == r.value.nonce && |world.script| < |old(world.script)|
      ensures |world.script| <= |old(world.script)|
      ensures var s := old(world.script);
        if !Willing(s) || !Willing(s[1..]) then r.Err?
        else r == Ok(s[1].response) && Ahead() == Outlook(s[2..], s[1].response.nonce.Some?)
    {
      hide Balanced, TryRun, Explains;
      ghost var held := world.trace;
      var signed := world.Sign();
      if !signed {
        UnsignedTry(head, url, AccountRef(), payload);
        assert Since(held, world.trace) == [Unsigned];
        Discard(held, Some(taken));
        Record(held, Unsigned);
        return Err(Signing);
      }
      var reply := world.Send(url, AccountRef(), taken, payload);
      ghost var e := Posted(url, AccountRef(), taken, payload, reply);
      Record(held, e);
      SentTry(head, e, url, AccountRef(), payload);
      assert Since(held, world.trace) == [e];
      if reply.None? { return Err(Transport); }
      if reply.value.nonce.Some? { nonce := reply.value.nonce; }
      r := Ok(reply.value);
    }

    /** One signed request, tried again with the nonce that came with each badNonce, at most four times in all. */
    method Post(url: string, payload: Payload) returns (r: Result<Response, Failure>)
      requires Valid()
      modifies world, this`nonce
      ensures Valid() && old(world.trace) <= world.trace
      ensures PostRun(Since(old(world.trace), world.trace), url, AccountRef(), payload, r)
      ensures r.Ok? ==> nonce == r.value.nonce && |world.script| < |old(world.script)|
      ensures |world.script| <= |old(world.script)|
      ensures var t := Served(old(Ahead()), BAD_NONCE_RETRIES);
        if t.None? then r.Err? else r == Ok(t.value.value) && Ahead() == t.value.ahead
    {
      hide Tried, Balanced, BadNonce, TryRun, PostRun, Attempts;
      ghost var start := world.trace;
      var attempt := 0;
      NoAttempts(url, AccountRef(), payload);
      assert Since(start, world.trace) == [];
      while true
        invariant 0 <= attempt <= BAD_NONCE_RETRIES
        invariant Valid() && start <= world.trace
        invariant Posts(Since(start, world.trace)) == attempt
        invariant Attempts(Since(start, world.trace), url, AccountRef(), payload)
        invariant |world.script| <= |old(world.script)|
        invariant Served(Ahead(), BAD_NONCE_RETRIES - attempt) == Served(old(Ahead()), BAD_NONCE_RETRIES)
        decreases BAD_NONCE_RETRIES - attempt
      {
        ghost var before := world.trace;
        var reply := Try(url, payload);
        OneMoreTry(Since(start, before), Since(before, world.trace), url, AccountRef(), payload, reply);
        assert Since(start, world.trace) == Since(start, before) + Since(before, world.trace);
        if reply.Ok? { Complaints(reply.value); }
        if reply.Ok? && BadNonce(reply.value) && attempt < BAD_NONCE_RETRIES {
          attempt := attempt + 1;
        } else {
          return reply;
        }
      }
    }

    /** Registers the account, or finds the one this key has, and remembers its URL. */
    method EnsureAccount(email: string, agreed: bool) returns (r: Result<string, Failure>)
      requires Valid()
      modifies world, this
      ensures Valid() && old(world.trace) <= world.trace
      ensures var t := Since(old(world.trace), world.trace);
        && t != [] && Only(t, directory.newAccount, old(AccountRef()), Register(email, agreed))
        && (r.Ok? ==> Grants(Last(t), directory, r.value) && kid == Some(r.value))
        && (r.Err? ==> Explains(r.error, Last(t)) && kid == old(kid))
      ensures var e := Enrolled(old(Ahead()));
        if e.None? then r.Err? else r == Ok(e.value.value) && Ahead() == e.value.ahead
    {
      hide Served, Balanced, PostRun;
      var reply := Post(directory.newAccount, Register(email, agreed));
      PostRunOnly(
        Since(old(world.trace), world.trace), directory.newAccount, AccountRef(), Register(email, agreed), reply);
      if reply.Err? { return Err(reply.error); }
      if !Success(reply.value) { return Err(Refused); }
      if reply.value.location.None? { return Err(NoLocation); }
      kid := reply.value.location;
      r := Ok(kid.value);
    }

    /** Looks the account up without creating one; a success without a Location forgets the URL. */
    method FindAccount() returns (r: Result<Option<string>, Failure>)
      requires Valid()
      modifies world, this
      ensures Valid() && old(world.trace) <= world.trace
      ensures var t := Since(old(world.trace), world.trace);
        && t != [] && Only(t, directory.newAccount, old(AccountRef()), LookUp)
        && (r.Ok? && Answered(Last(t)) ==> Last(t).reply.value.location == r.value == kid)
        && (r.Ok? && !Answered(Last(t)) ==>
              && Last(t).Posted? && Last(t).reply.Some? && NoSuchAccount(Last(t).reply.value)
              && r.value.None? && kid == old(kid))
        && (r.Err? ==> Explains(r.error, Last(t)) && kid == old(kid))
        && (r == Err(Refused) ==> Last(t).Posted? && !NoSuchAccount(Last(t).reply.value))
      ensures var s := Served(old(Ahead()), BAD_NONCE_RETRIES);
        if s.None? || !(Fine(s.value.value) || Complains(s.value.value, ":accountDoesNotExist")) then r.Err?
        else
          && r == Ok(if Fine(s.value.value) then s.value.value.location else None)
          && Ahead() == s.value.ahead
    {
      hide Served, Balanced, PostRun;
      var reply := Post(directory.newAccount, LookUp);
      PostRunOnly(Since(old(world.trace), world.trace), directory.newAccount, AccountRef(), LookUp, reply);
      if reply.Err? { return Err(reply.error); }
      Complaints(reply.value);
      if Success(reply.value) {
        kid := reply.value.location;
        return Ok(kid);
      }
      r := if NoSuchAccount(reply.value) then Ok(None) else Err(Refused);
    }

    method NewOrder(domains: seq<string>) returns (r: Result<Order, Failure>)
      requires Valid()
      modifies world, this`nonce
      ensures Valid() && old(world.trace) <= world.trace
      ensures domains == [] ==> r == Err(NoDomains) && world.trace == old(world.trace)
      ensures var t := Since(old(world.trace), world.trace);
        domains != [] ==>
          && t != [] && Only(t, directory.newOrder, AccountRef(), Identifiers(domains))
          && (r.Ok? ==> Places(Last(t), directory, domains, r.value))
          && (r.Err? ==> Explains(r.error, Last(t)))
      ensures domains != [] ==>
        var o := OrderPlaced(old(Ahead()));
        if o.None? then r.Err?
        else r.Ok? && r.value == OrderOf(r.value.url, o.value.value) && Ahead() == o.value.ahead
      ensures r.Ok? ==>
        var e := Last(world.trace);
        && Told(e) && Opens(e, directory.newOrder, domains, r.value.url, Doc(e))
        && GoesTo(Doc(e), r.value.finalize) && Lists(Doc(e), r.value.authorizations)
    {
      hide Served, Balanced, PostRun;
      if domains == [] { return Err(NoDomains); }
      var reply := Post(directory.newOrder, Identifiers(domains));
      PostRunOnly(Since(old(world.trace), world.trace), directory.newOrder, AccountRef(), Identifiers(domains), reply);
      if reply.Err? { return Err(reply.error); }
      if !Success(reply.value) { return Err(Refused); }
      if reply.value.location.None? { return Err(NoLocation); }
      if reply.value.body.json.None? { return Err(NotJson); }
      OrderIsListed(reply.value.location.value, reply.value.body.json.value);
      r := Ok(OrderOf(reply.value.location.value, reply.value.body.json.value));
    }

    /** A signed read of a document; late says whether the caller's deadline passed while reading it. */
    method PostAsGet(url: string) returns (r: Result<Document, Failure>, late: bool)
      requires Valid()
      modifies world, this`nonce
      ensures Valid() && old(world.trace) <= world.trace && |world.script| <= |old(world.script)|
      ensures r.Ok? ==> |world.script| < |old(world.script)|
      ensures var t := Since(old(world.trace), world.trace);
        && t != [] && Only(t, url, AccountRef(), Read)
        && (r.Ok? ==> Told(Last(t)) && Doc(Last(t)) == r.value && late == Last(t).reply.value.late)
        && (r.Err? ==> Explains(r.error, Last(t)))
      ensures var s := Shown(old(Ahead()));
        if s.None? then r.Err?
        else
          && r == Ok(s.value.value.body.json.value) && late == s.value.value.late
          && Ahead() == s.value.ahead
    {
      hide Served, Balanced, PostRun;
      late := false;
      var reply := Post(url, Read);
      PostRunOnly(Since(old(world.trace), world.trace), url, AccountRef(), Read, reply);
      if reply.Err? { return Err(reply.error), late; }
      if !Success(reply.value) { return Err(Refused), late; }
      if reply.value.body.json.None? { return Err(NotJson), late; }
      r, late := Ok(reply.value.body.json.value), reply.value.late;
    }

    /** Downloads the chain. */
    method Download(url: string) returns (r: Result<string, Failure>)
      requires Valid()
      modifies world, this`nonce
      ensures Valid() && old(world.trace) <= world.trace
      ensures var t := Since(old(world.trace), world.trace);
        && t != [] && Only(t, url, AccountRef(), Read)
        && (r.Ok? ==>
              && Answered(Last(t)) && Last(t).reply.value.body.text == Some(r.value)
              && Contains(r.value, "BEGIN CERTIFICATE"))
        && (r.Err? ==> Explains(r.error, Last(t)))
      ensures var d := Downloaded(old(Ahead())); if d.None? then r.Err? else r == Ok(d.value)
    {
      hide Served, Balanced, Contains, PostRun;
      var reply := Post(url, Read);
      PostRunOnly(Since(old(world.trace), world.trace), url, AccountRef(), Read, reply);
      if reply.Err? { return Err(reply.error); }
      if !Success(reply.value) { return Err(Refused); }
      if reply.value.body.text.None? { return Err(NotPem); }
      PemMeans(reply.value.body.text.value);
      if !Contains(reply.value.body.text.value, "BEGIN CERTIFICATE") { return Err(NotPem); }
      r := Ok(reply.value.body.text.value);
    }

    /** Reads the authorization until it is decided or the deadline has passed. */
    method Await(url: string, name: string) returns (r: Result<string, Failure>)
      requires Valid()
      modifies world, this`nonce
      ensures Valid() && old(world.trace) <= world.trace && |world.script| <= |old(world.script)|
      ensures var t := Since(old(world.trace), world.trace);
        && t != [] && Only(t, url, AccountRef(), Read)
        && (r.Ok? ==> ReadsValid(Last(t), url) && r.value == name)
        && (r.Err? ==> Explains(r.error, Last(t)))
      ensures var v := Validated(old(Ahead())); if v.None? then r.Err? else r == Ok(name) && Ahead() == v.value.ahead
    {
      hide Shown, Balanced, Explains, Only, Http01;
      ghost var start := world.trace;
      OnlyNothing(url, AccountRef(), Read);
      assert Since(start, world.trace) == [];
      while true
        invariant Valid() && start <= world.trace && |world.script| <= |old(world.script)|
        invariant Only(Since(start, world.trace), url, AccountRef(), Read)
        invariant Validated(Ahead()) == Validated(old(Ahead()))
        decreases |world.script|
      {
        ghost var before := world.trace;
        var state, late := PostAsGet(url);
        ghost var t := Since(before, world.trace);
        assert Since(start, world.trace) == Since(start, before) + t;
        OnlyJoin(Since(start, before), t, url, AccountRef(), Read);
        assert Last(Since(start, world.trace)) == Last(t);
        if state.Ok? { PollExplains(t, url, AccountRef()); }
        if state.Err? { return Err(state.error); }
        if Says(state.value, "valid") { return Ok(name); }
        if Says(state.value, "invalid") { return Err(Invalid); }
        if late { return Err(Late); }
      }
    }

    /** Puts the proof in place, says so, and waits for the verdict. */
    method Prove(url: string, name: string, token: string, challengeUrl: string, thumbprint: string)
      returns (r: Result<string, Failure>)
      requires Valid()
      modifies world, this`nonce
      ensures Valid() && old(world.trace) <= world.trace
      ensures ProveRun(
                Since(old(world.trace), world.trace), url, AccountRef(), token, challengeUrl, thumbprint, r)
      ensures r.Ok? ==> r.value == name
      ensures var p := Proven(old(Ahead())); if p.None? then r.Err? else r == Ok(name) && Ahead() == p.value
    {
      hide Served, Validated, Balanced, PostRun, ProveRun, Only, Explains;
      ghost var start := world.trace;
      var done := world.Write(token, Proof(token, thumbprint));
      PassBy(start, Wrote(token, Proof(token, thumbprint), done), nonce);
      ghost var wrote := world.trace;
      ghost var w := Last(wrote);
      RefusedExplains(w);
      assert Since(start, wrote) == [w];
      if !done {
        Unwritten(w, url, AccountRef(), token, challengeUrl, thumbprint);
        return Err(NotWritten);
      }
      var reply := Post(challengeUrl, Ready);
      ghost var told := world.trace;
      PostRunOnly(Since(wrote, told), challengeUrl, AccountRef(), Ready, reply);
      ghost var t := Since(wrote, told);
      assert Since(start, told) == [w] + t;
      RefusedExplains(Last(told));
      if reply.Err? || !Success(reply.value) {
        r := Err(if reply.Err? then reply.error else Refused);
        Untold(w, t, url, AccountRef(), token, challengeUrl, thumbprint, r);
        return;
      }
      r := Await(url, name);
      assert Since(start, world.trace) == [w] + t + Since(told, world.trace);
      Awaited(w, t, Since(told, world.trace), url, AccountRef(), token, challengeUrl, thumbprint, r);
    }

    /** Satisfies one http-01 authorization; one that is valid already needs nothing. */
    method SolveHttp01(url: string) returns (r: Result<string, Failure>)
      requires Valid()
      modifies world, this`nonce
      ensures Valid() && old(world.trace) <= world.trace
      ensures SolveRun(Since(old(world.trace), world.trace), url, AccountRef(), key.thumbprint, r)
      ensures key.thumbprint.Some? ==>
        var m := Met(old(Ahead())); if m.None? then r.Err? else r.Ok? && Ahead() == m.value
    {
      hide Shown, Proven, Balanced, SolveRun, ProveRun, AcmeScript.Offers;
      ghost var start, account := world.trace, AccountRef();
      if key.thumbprint.None? {
        assert Since(start, world.trace) == [];
        NotTried(url, account);
        return Err(NoThumbprint);
      }
      var thumbprint := key.thumbprint.value;
      var first, _ := PostAsGet(url);
      ghost var read := Since(start, world.trace);
      if first.Err? {
        r := Err(first.error);
      } else if Says(first.value, "valid") {
        r := Ok(NameOf(first.value));
      } else {
        OffersMeans(first.value);
        var challenge := Http01(first.value);
        if challenge.None? {
          r := Err(NoChallenge);
        } else if challenge.value.token.None? {
          r := Err(NoToken);
        } else if challenge.value.url.None? {
          r := Err(NoUrl);
        } else {
          ghost var before := world.trace;
          assert Names(Last(read), url, NameOf(first.value));
          r := Prove(url, NameOf(first.value), challenge.value.token.value, challenge.value.url.value, thumbprint);
          assert Since(start, world.trace) == read + Since(before, world.trace);
          Proves(read, Since(before, world.trace), url, account, thumbprint, NameOf(first.value), r);
          return;
        }
      }
      Decides(read, url, account, thumbprint, r);
    }

    /** Reads the order until it is decided or the deadline has passed. */
    method AwaitOrder(url: string) returns (r: Result<string, Failure>)
      requires Valid()
      modifies world, this`nonce
      ensures Valid() && old(world.trace) <= world.trace
      ensures var t := Since(old(world.trace), world.trace);
        && t != [] && Only(t, url, AccountRef(), Read)
        && (r.Ok? ==> ReadsValid(Last(t), url) && Doc(Last(t)).certificate == Some(r.value))
        && (r.Err? ==> Explains(r.error, Last(t)))
      ensures var v := Validated(old(Ahead()));
        if v.None? || v.value.value.certificate.None? then r.Err?
        else r == Ok(v.value.value.certificate.value) && Ahead() == v.value.ahead
    {
      hide Shown, Balanced, Explains, Only, Http01;
      ghost var start := world.trace;
      OnlyNothing(url, AccountRef(), Read);
      assert Since(start, world.trace) == [];
      while true
        invariant Valid() && start <= world.trace
        invariant Only(Since(start, world.trace), url, AccountRef(), Read)
        invariant Validated(Ahead()) == Validated(old(Ahead()))
        decreases |world.script|
      {
        ghost var before := world.trace;
        var state, late := PostAsGet(url);
        ghost var t := Since(before, world.trace);
        assert Since(start, world.trace) == Since(start, before) + t;
        OnlyJoin(Since(start, before), t, url, AccountRef(), Read);
        assert Last(Since(start, world.trace)) == Last(t);
        if state.Ok? { PollExplains(t, url, AccountRef()); }
        if state.Err? { return Err(state.error); }
        if Says(state.value, "valid") {
          return if state.value.certificate.Some? then Ok(state.value.certificate.value) else Err(NoCertificate);
        }
        if Says(state.value, "invalid") { return Err(Invalid); }
        if late { return Err(Late); }
      }
    }

    /** Sends the certificate request and waits for the order to be valid. */
    method Finalize(order: Order, names: seq<string>) returns (r: Result<string, Failure>)
      requires Valid()
      modifies world, this`nonce
      ensures Valid() && old(world.trace) <= world.trace
      ensures FinalizeRun(Since(old(world.trace), world.trace), order, names, AccountRef(), r)
      ensures var f := Finalized(old(Ahead()));
        if f.None? then r.Err? else r == Ok(f.value.value) && Ahead() == f.value.ahead
    {
      hide Served, Validated, Balanced, PostRun, FinalizeRun, ReadsValid;
      ghost var start := world.trace;
      var reply := Post(order.finalize, Csr(names));
      ghost var told := world.trace;
      PostRunOnly(Since(start, told), order.finalize, AccountRef(), Csr(names), reply);
      if reply.Err? {
        r := Err(reply.error);
      } else if !Success(reply.value) {
        r := Err(Refused);
      } else {
        r := AwaitOrder(order.url);
      }
      assert Since(start, world.trace) == Since(start, told) + Since(told, world.trace);
      Finalizes(Since(start, told), Since(told, world.trace), order, names, AccountRef(), r);
    }
  }

  /** Fetches the directory; its answer's nonce is the first one held. */
  method Discover(world: World, url: string, key: Key) returns (r: Result<Client, Failure>)
    requires Balanced(world.trace, None)
    modifies world
    ensures world.trace == old(world.trace) + [Fetched(url, old(world.Reply()))]
    ensures Balanced(world.trace, None)
    ensures r.Ok? ==>
      && fresh(r.value) && r.value.world == world && r.value.key == key && r.value.Valid() && r.value.kid.None?
      && DirectoryOf(Last(world.trace)) == Some(r.value.directory)
    ensures r.Err? ==> Explains(r.error, Last(world.trace)) && DirectoryOf(Last(world.trace)).None?
    ensures r.Ok? <==>
      && Willing(old(world.script)) && Success(old(world.script)[0].response)
      && old(world.script)[0].response.body.directory.Some?
    ensures r.Ok? ==>
      r.value.Ahead() == Outlook(old(world.script)[1..], old(world.script)[0].response.nonce.Some?)
  {
    hide Balanced;
    ghost var start := world.trace;
    var reply := world.Get(url);
    Record(start, Fetched(url, reply));
    if reply.None? { return Err(Transport); }
    if !Success(reply.value) { return Err(Refused); }
    if reply.value.body.directory.None? { return Err(NoDirectory); }
    var client := new Client(world, reply.value.body.directory.value, key, reply.value.nonce);
    r := Ok(client);
  }

  /** The account this key has, or a new one. */
  method Identify(client: Client, email: string, agreed: bool) returns (r: Result<string, Failure>)
    requires client.Valid() && client.kid.None?
    modifies client, client.world
    ensures client.Valid() && old(client.world.trace) <= client.world.trace
    ensures var t := Since(old(client.world.trace), client.world.trace);
      && t != [] && Asks(t, client.directory)
      && (r.Ok? ==> client.kid == Some(r.value) && Grants(Last(t), client.directory, r.value))
      && (r.Err? ==> Explains(r.error, Last(t)))
      && forall domains :: Begun(t, email, agreed, domains)
    ensures var k := Known(old(client.Ahead()));
      if k.None? then r.Err? else r == Ok(k.value.value) && client.Ahead() == k.value.ahead
  {
    hide Served, Enrolled, Balanced, Explains, NoSuchAccount, Begun, Only, Complains, Fine, Asks;
    ghost var start := client.world.trace;
    var found := client.FindAccount();
    ghost var before := client.world.trace;
    ghost var t := Since(start, before);
    AsksOnly(t, client.directory, LookUp);
    forall domains ensures Begun(t, email, agreed, domains) {
      StartsOnly(t, client.directory.newAccount, Jwk, LookUp, email, agreed, domains);
    }
    if found.Err? { return Err(found.error); }
    if found.value.Some? { return Ok(found.value.value); }
    r := client.EnsureAccount(email, agreed);
    ghost var more := Since(before, client.world.trace);
    assert Since(start, client.world.trace) == t + more;
    AsksOnly(more, client.directory, Register(email, agreed));
    AsksJoin(t, more, client.directory);
    forall domains ensures Begun(t + more, email, agreed, domains) {
      BegunOnly(t, more, client.directory.newAccount, Jwk, Register(email, agreed), email, agreed, domains);
    }
  }

  /** Satisfies the authorizations one after the other, up to the first failure. */
  method SolveAll(client: Client, urls: seq<string>, ghost run: seq<Event>, ghost kid: string)
    returns (failure: Option<Failure>)
    requires client.Valid() && client.kid == Some(kid)
    requires Going(run, client.directory, PrintOf(client.key.thumbprint), kid) && run != []
    modifies client.world, client`nonce
    ensures client.Valid() && old(client.world.trace) <= client.world.trace
    ensures var all := run + Since(old(client.world.trace), client.world.trace);
      && Going(all, client.directory, PrintOf(client.key.thumbprint), kid)
      && (failure.None? ==> AllSeen(all, urls)) && Routine(Since(old(client.world.trace), client.world.trace))
      && (failure.Some? ==>
            || (failure.value == NoThumbprint && client.key.thumbprint.None?)
            || Explains(failure.value, Last(all)))
    ensures client.key.thumbprint.Some? ==>
      var m := MetTimes(old(client.Ahead()), |urls|);
      if m.None? then failure.Some? else failure.None? && client.Ahead() == m.value
  {
    hide Met, Balanced, Explains, Going, SolveRun, SeenValid, Routine;
    ghost var start := client.world.trace;
    NothingRoutine();
    assert Since(start, client.world.trace) == [];
    assert run + Since(start, client.world.trace) == run;
    for i := 0 to |urls|
      invariant client.Valid() && client.kid == Some(kid) && start <= client.world.trace
      invariant Going(run + Since(start, client.world.trace), client.directory, PrintOf(client.key.thumbprint), kid)
      invariant AllSeen(run + Since(start, client.world.trace), urls[..i])
      invariant Routine(Since(start, client.world.trace))
      invariant client.key.thumbprint.Some? ==>
          MetTimes(client.Ahead(), |urls| - i) == MetTimes(old(client.Ahead()), |urls|)
    {
      ghost var before := client.world.trace;
      ghost var done := run + Since(start, before);
      var r := client.SolveHttp01(urls[i]);
      ghost var t := Since(before, client.world.trace);
      assert run + Since(start, client.world.trace) == done + t;
      SolveGoesOn(done, t, urls[i], client.directory, client.key.thumbprint, kid, r);
      SolveIsRoutine(t, urls[i], Kid(kid), client.key.thumbprint, r);
      RoutineJoin(Since(start, before), t);
      assert Since(start, client.world.trace) == Since(start, before) + t;
      if r.Err? { return Some(r.error); }
      AllSeenLater(done, t, urls[..i]);
      assert urls[..i + 1] == urls[..i] + [urls[i]];
    }
    assert urls[..|urls|] == urls;
    failure := None;
  }

  /** From the order to the downloaded chain, for an account that is settled. */
  method Obtain(
    client: Client, domains: seq<string>, ghost run: seq<Event>, ghost kid: string,
    ghost email: string, ghost agreed: bool)
    returns (r: Result<string, Failure>)
    requires client.Valid() && client.kid == Some(kid)
    requires Going(run, client.directory, PrintOf(client.key.thumbprint), kid) && run != []
    requires Begun(run, email, agreed, domains)
    modifies client.world, client`nonce
    ensures client.Valid() && old(client.world.trace) <= client.world.trace
    ensures var all := run + Since(old(client.world.trace), client.world.trace);
      && Going(all, client.directory, PrintOf(client.key.thumbprint), kid)
      && Conducted(all, client.directory.newOrder) && Worded(all, email, agreed, domains)
      && (r.Ok? ==> Completed(all, client.directory, domains, r.value))
      && (r.Err? ==> Accounted(r.error, Last(all), client.key.thumbprint, domains))
    ensures client.key.thumbprint.Some? && domains != [] ==>
      var o := Obtained(old(client.Ahead())); if o.None? then r.Err? else r == Ok(o.value)
  {
    hide OrderPlaced, AllMet, MetTimes, Redeemed, Balanced, Explains, Going, Places, AllSeen, FinalizeRun, Completed,
        Contains, Only, Entitled, Begun, Routine, Conducted, Worded, Opens, Lists, Strings, NoCsr;
    ghost var world, d, thumbprint := client.world, client.directory, PrintOf(client.key.thumbprint);
    ghost var start := world.trace;
    ghost var account := Kid(kid);
    var order := client.NewOrder(domains);
    ghost var ordered := world.trace;
    if domains == [] {
      assert run + Since(start, start) == run;
      BegunConducts(run, d.newOrder, email, agreed, domains);
      return Err(NoDomains);
    }
    ghost var placed := run + Since(start, ordered);
    OnlyGoesOn(run, Since(start, ordered), d.newOrder, Identifiers(domains), d, thumbprint, kid);
    BegunOnly(run, Since(start, ordered), d.newOrder, account, Identifiers(domains), email, agreed, domains);
    BegunConducts(placed, d.newOrder, email, agreed, domains);
    if order.Err? { return Err(order.error); }
    Listed(old(client.Ahead()), order.value);
    var failure := SolveAll(client, order.value.authorizations, placed, kid);
    ghost var solved := world.trace;
    ghost var seen := placed + Since(ordered, solved);
    assert run + Since(start, solved) == seen;
    BegunRoutine(placed, Since(ordered, solved), email, agreed, domains);
    BegunConducts(seen, d.newOrder, email, agreed, domains);
    if failure.Some? { return Err(failure.value); }
    r := Redeem(client, order.value, domains, seen, |placed| - 1, kid, email, agreed);
    assert run + Since(start, world.trace) == seen + Since(solved, world.trace);
  }

  /** Makes the certificate key, sends its request, waits, and downloads the chain. */
  method Redeem(
    client: Client, order: Order, domains: seq<string>, ghost run: seq<Event>, ghost o: nat, ghost kid: string,
    ghost email: string, ghost agreed: bool)
    returns (r: Result<string, Failure>)
    requires client.Valid() && client.kid == Some(kid)
    requires Going(run, client.directory, PrintOf(client.key.thumbprint), kid)
    requires o < |run| && Places(run[o], client.directory, domains, order) && AllSeen(run, order.authorizations)
    requires Begun(run, email, agreed, domains)
    modifies client.world, client`nonce
    ensures client.Valid() && old(client.world.trace) <= client.world.trace
    ensures var all := run + Since(old(client.world.trace), client.world.trace);
      && Going(all, client.directory, PrintOf(client.key.thumbprint), kid)
      && Conducted(all, client.directory.newOrder) && Worded(all, email, agreed, domains)
      && (r.Ok? ==> Completed(all, client.directory, domains, r.value))
      && (r.Err? ==> Explains(r.error, Last(all)))
    ensures var pem := Redeemed(old(client.Ahead())); if pem.None? then r.Err? else r == Ok(pem.value)
  {
    hide Finalized, Downloaded, Balanced, Explains, Going, Places, AllSeen, Completed, Entitled, Begun, Conducted,
        Worded, NoCsr;
    ghost var start, thumbprint := client.world.trace, PrintOf(client.key.thumbprint);
    assert Entitled(run, client.directory, domains, order.finalize) by {
      EntitledNow(run, o, client.directory, domains, order);
    }
    var made := client.world.Prepare();
    PassBy(start, Prepared(made), client.nonce);
    IdleGoesOn(run, Prepared(made), client.directory, thumbprint, kid);
    ghost var ready := client.world.trace;
    assert run + Since(start, ready) == run + [Prepared(made)];
    BegunIdle(run, Prepared(made), email, agreed, domains);
    BegunConducts(run + [Prepared(made)], client.directory.newOrder, email, agreed, domains);
    if !made {
      NoKeyExplains();
      return Err(NoKey);
    }
    r := Collect(client, order, domains, run, o, kid, email, agreed);
    assert run + Since(start, client.world.trace) == run + [Prepared(true)] + Since(ready, client.world.trace);
  }

  /** Sends the request of the certificate key, waits, and downloads the chain. */
  method Collect(
    client: Client, order: Order, domains: seq<string>, ghost run: seq<Event>, ghost o: nat, ghost kid: string,
    ghost email: string, ghost agreed: bool)
    returns (r: Result<string, Failure>)
    requires client.Valid() && client.kid == Some(kid)
    requires Going(run + [Prepared(true)], client.directory, PrintOf(client.key.thumbprint), kid)
    requires o < |run| && Places(run[o], client.directory, domains, order) && AllSeen(run, order.authorizations)
    requires Begun(run, email, agreed, domains)
    requires Entitled(run, client.directory, domains, order.finalize)
    modifies client.world, client`nonce
    ensures client.Valid() && old(client.world.trace) <= client.world.trace
    ensures var all := run + [Prepared(true)] + Since(old(client.world.trace), client.world.trace);
      && Going(all, client.directory, PrintOf(client.key.thumbprint), kid)
      && Conducted(all, client.directory.newOrder) && Worded(all, email, agreed, domains)
      && (r.Ok? ==> Completed(all, client.directory, domains, r.value))
      && (r.Err? ==> Explains(r.error, Last(all)))
    ensures var f := Finalized(old(client.Ahead()));
      if f.None? || Downloaded(f.value.ahead).None? then r.Err? else r == Ok(Downloaded(f.value.ahead).value)
  {
    hide Finalized, Downloaded, Balanced, Explains, Going, Places, AllSeen, FinalizeRun, Completed, Contains, Only,
        Entitled, Begun, Conducted, Worded, NoCsr;
    ghost var d, thumbprint := client.directory, PrintOf(client.key.thumbprint);
    ghost var start, prepared := client.world.trace, run + [Prepared(true)];
    BegunIdle(run, Prepared(true), email, agreed, domains);
    AllSeenLater(run, [Prepared(true)], order.authorizations);
    EntitledLater(run, [Prepared(true)], d, domains, order.finalize);
    var certificate := client.Finalize(order, domains);
    ghost var finished := client.world.trace;
    ghost var fin := Since(start, finished);
    FinalizeGoesOn(prepared, fin, order, domains, d, thumbprint, kid, certificate);
    if certificate.Err? {
      Closes(prepared, o, order, fin, [], d, domains, Kid(kid), certificate, email, agreed);
      assert prepared + fin + [] == prepared + fin;
      return Err(certificate.error);
    }
    r := client.Download(certificate.value);
    ghost var down := Since(finished, client.world.trace);
    Closes(prepared, o, order, fin, down, d, domains, Kid(kid), certificate, email, agreed);
    OnlyGoesOn(prepared + fin, down, certificate.value, Read, d, thumbprint, kid);
    assert prepared + Since(start, client.world.trace) == prepared + fin + down;
    if r.Ok? {
      Completes(run, o, order, [Prepared(true)], fin, down, d, domains, Kid(kid), certificate.value, r.value);
    }
  }

  /** Issues a certificate for these names, against any behaviour of the server, the disk and the clock. */
  method Issue(world: World, url: string, key: Key, email: string, agreed: bool, domains: seq<string>)
    returns (r: Result<Issuance, Failure>)
    requires Balanced(world.trace, None)
    modifies world
    ensures Balanced(world.trace, None) && old(world.trace) <= world.trace
    ensures IssueRun(Since(old(world.trace), world.trace), url, key.thumbprint, domains, Chain(r))
    ensures r.Ok? ==> r.value.names == domains
    ensures Proceeds(
              Since(old(world.trace), world.trace), url, email, agreed, domains, PrintOf(key.thumbprint), Chain(r))
    ensures key.thumbprint.Some? && domains != [] ==>
      var pem := Obliges(old(world.script)); if pem.None? then r.Err? else r == Ok(Issuance(pem.value, domains))
  {
    hide Known, Obtained, Balanced, Explains, Going, IssueRun, Asks, Grants, Completed, Ordered, Begun, Conducted,
        Worded, Proceeds, NoCsr;
    ghost var start := world.trace;
    var discovered := Discover(world, url, key);
    ghost var first := Last(world.trace);
    if discovered.Err? {
      NoDirectoryRun(first, url, key.thumbprint, domains, discovered.error);
      NoDirectoryProceeds(first, url, email, agreed, domains, PrintOf(key.thumbprint), discovered.error);
      assert Since(start, world.trace) == [first];
      return Err(discovered.error);
    }
    var client := discovered.value;
    ghost var fetched := world.trace;
    var identified := Identify(client, email, agreed);
    ghost var known := world.trace;
    ghost var run := [first] + Since(fetched, known);
    SetOut(first, Since(fetched, known), client.directory, PrintOf(key.thumbprint));
    assert Since(start, known) == run;
    Discard(known, client.nonce);
    BegunFirst(first, Since(fetched, known), email, agreed, domains);
    if identified.Err? {
      BegunConducts(run, client.directory.newOrder, email, agreed, domains);
      OrderedProceeds(
        run, url, client.directory, email, agreed, domains, PrintOf(key.thumbprint), Err(identified.error));
      OrderedRun(run, url, key.thumbprint, domains, Err(identified.error));
      return Err(identified.error);
    }
    var pem := Obtain(client, domains, run, identified.value, email, agreed);
    assert Since(start, world.trace) == run + Since(known, world.trace);
    GoingIsOrdered(Since(start, world.trace), client.directory, PrintOf(key.thumbprint), identified.value);
    OrderedRun(Since(start, world.trace), url, key.thumbprint, domains, pem);
    Discard(world.trace, client.nonce);
    r := if pem.Ok? then Ok(Issuance(pem.value, domains)) else Err(pem.error);
    OrderedProceeds(
      Since(start, world.trace), url, client.directory, email, agreed, domains, PrintOf(key.thumbprint), pem);
  }

  lemma Listed(ahead: Outlook, order: Order)
    ensures var t := OrderPlaced(ahead);
      t.Some? && order == OrderOf(order.url, t.value.value) ==>
        var listed := t.value.value.authorizations;
        AllMet(t.value.ahead, if listed.Some? then listed.value else [])
          == MetTimes(t.value.ahead, |order.authorizations|)
  {
    var t := OrderPlaced(ahead);
    if t.Some? && order == OrderOf(order.url, t.value.value) {
      var listed := t.value.value.authorizations;
      hide OrderPlaced, Met;
      MetOnceEach(t.value.ahead, if listed.Some? then listed.value else []);
    }
  }

  ghost function Chain(r: Result<Issuance, Failure>): Result<string, Failure> {
    if r.Ok? then Ok(r.value.pem) else Err(r.error)
  }
}
