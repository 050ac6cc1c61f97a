/**
 * What an ACME client and the world exchange, recorded event by event, and what a run of events may look like: which
 * nonces it spends, which key reference each request carries, and what must have happened before a request is sent.
 */
module AcmeTrace {
  import opened Wrappers

  datatype Directory = Directory(newAccount: string, newNonce: string, newOrder: string)

  datatype Challenge = Challenge(kind: Option<string>, token: Option<string>, url: Option<string>)

  /** The members the client reads out of any JSON body; an absent or ill-typed member is None. */
  datatype Document = Document(
    kind: Option<string>,
    status: Option<string>,
    identifier: Option<string>,
    challenges: Option<seq<Challenge>>,
    authorizations: Option<seq<Option<string>>>,
    finalize: Option<string>,
    certificate: Option<string>
  )

  /** One body, as its three readers see it. */
  datatype Body = Body(directory: Option<Directory>, json: Option<Document>, text: Option<string>)

  /** An HTTP response; late says whether a running deadline has passed once it has been read. */
  datatype Response = Response(status: nat, location: Option<string>, nonce: Option<string>, body: Body, late: bool)

  datatype Account = Jwk | Kid(url: string)

  /** What a signed request carries: Read is the empty payload of POST-as-GET, Ready is the answer to a challenge. */
  datatype Payload =
    | LookUp
    | Register(email: string, agreed: bool)
    | Identifiers(domains: seq<string>)
    | Read
    | Ready
    | Csr(names: seq<string>)

  /** The body served for a token; how it hashes the key authorization is not looked into. */
  datatype Proof = Proof(token: string, thumbprint: string)

  datatype Event =
    | Fetched(url: string, reply: Option<Response>)
    | Headed(url: string, reply: Option<Response>)
    | Posted(url: string, account: Account, nonce: string, payload: Payload, reply: Option<Response>)
    | Unsigned
    | Wrote(token: string, proof: Proof, done: bool)
    | Prepared(done: bool)

  datatype Order = Order(url: string, authorizations: seq<string>, finalize: string)

  datatype Failure =
    | NoDomains | NoThumbprint
    | Transport | NoNonce | Signing | Refused | NotJson | NoDirectory | NoLocation
    | NoChallenge | NoToken | NoUrl | NotWritten | Invalid | Late | NoCertificate | NotPem | NoKey

  // -- Reading responses -----------------------------------------------------------------------

  predicate Success(r: Response) {
    200 <= r.status < 300
  }

  predicate EndsWith(s: string, suffix: string) {
    |suffix| <= |s| && s[|s| - |suffix|..] == suffix
  }

  predicate Contains(s: string, part: string) {
    exists i | 0 <= i <= |s| - |part| :: StandsAt(s, part, i)
  }

  predicate StandsAt(s: string, part: string, i: nat)
    requires i <= |s| - |part|
  {
    s[i..i + |part|] == part
  }

  /** A problem document of the given kind. */
  predicate Problem(r: Response, suffix: string) {
    && r.status == 400
    && r.body.json.Some?
    && r.body.json.value.kind.Some?
    && EndsWith(r.body.json.value.kind.value, suffix)
  }

  predicate BadNonce(r: Response) {
    Problem(r, ":badNonce")
  }

  predicate NoSuchAccount(r: Response) {
    Problem(r, ":accountDoesNotExist")
  }

  predicate Says(d: Document, status: string) {
    d.status == Some(status)
  }

  /** The entries that are strings. */
  function Strings(entries: seq<Option<string>>): (s: seq<string>)
    ensures forall x :: x in s <==> Some(x) in entries
  {
    if |entries| == 0 then []
    else
      assert entries == [entries[0]] + entries[1..];
      (if entries[0].Some? then [entries[0].value] else []) + Strings(entries[1..])
  }

  function OrderOf(url: string, d: Document): Order {
    Order(
      url,
      if d.authorizations.Some? then Strings(d.authorizations.value) else [],
      if d.finalize.Some? then d.finalize.value else "")
  }

  ghost predicate FirstAt(challenges: seq<Challenge>, i: nat) {
    && i < |challenges| && challenges[i].kind == Some("http-01")
    && (forall j | 0 <= j < i :: challenges[j].kind != Some("http-01"))
  }

  /** The first challenge of the http-01 kind. */
  function FirstHttp01(challenges: seq<Challenge>): (r: Option<Challenge>)
    ensures r.None? <==> forall c | c in challenges :: c.kind != Some("http-01")
    ensures r.Some? ==> exists i: nat :: FirstAt(challenges, i) && challenges[i] == r.value
  {
    if |challenges| == 0 then None
    else if challenges[0].kind == Some("http-01") then
      assert FirstAt(challenges, 0);
      Some(challenges[0])
    else
      var rest := FirstHttp01(challenges[1..]);
      assert challenges == [challenges[0]] + challenges[1..];
      assert forall i: nat | FirstAt(challenges[1..], i) ::
          FirstAt(challenges, i + 1) && challenges[i + 1] == challenges[1..][i];
      rest
  }

  function Http01(d: Document): Option<Challenge> {
    if d.challenges.Some? then FirstHttp01(d.challenges.value) else None
  }

  // -- Nonces ------------------------------------------------------------------------------------

  function Issues(e: Event): multiset<string> {
    match e
    case Fetched(_, Some(r)) => if r.nonce.Some? then multiset{r.nonce.value} else multiset{}
    case Headed(_, Some(r)) => if r.nonce.Some? then multiset{r.nonce.value} else multiset{}
    case Posted(_, _, _, _, Some(r)) => if r.nonce.Some? then multiset{r.nonce.value} else multiset{}
    case _ => multiset{}
  }

  function Spends(e: Event): multiset<string> {
    if e.Posted? then multiset{e.nonce} else multiset{}
  }

  /** Every nonce the server handed out during t. */
  function Issued(t: seq<Event>): multiset<string> {
    if |t| == 0 then multiset{} else Issued(t[..|t| - 1]) + Issues(t[|t| - 1])
  }

  /** Every nonce a signed request carried during t. */
  function Spent(t: seq<Event>): multiset<string> {
    if |t| == 0 then multiset{} else Spent(t[..|t| - 1]) + Spends(t[|t| - 1])
  }

  /** Each request spends a nonce received before it and not spent before it. */
  ghost predicate Frugal(t: seq<Event>) {
    |t| == 0 || (Frugal(t[..|t| - 1]) && Spent(t) <= Issued(t[..|t| - 1]))
  }

  /** Nothing is spent that was not issued, even counting the nonce that is still held. */
  ghost predicate Balanced(t: seq<Event>, held: Option<string>) {
    && Frugal(t)
    && Spent(t) + (if held.Some? then multiset{held.value} else multiset{}) <= Issued(t)
  }

  /** The nonce an event brings along, and the one it takes. */
  function Brings(e: Event): Option<string> {
    if (e.Fetched? || e.Headed? || e.Posted?) && e.reply.Some? then e.reply.value.nonce else None
  }

  function Takes(e: Event): Option<string> {
    if e.Posted? then Some(e.nonce) else None
  }

  lemma Record(t: seq<Event>, e: Event)
    requires Balanced(t, Takes(e))
    ensures Balanced(t + [e], Brings(e)) && Balanced(t + [e], None)
  {
    assert (t + [e])[..|t|] == t;
    assert Issued(t + [e]) == Issued(t) + Issues(e);
    assert Spent(t + [e]) == Spent(t) + Spends(e);
  }

  /** An event that brings and takes no nonce leaves the held one held. */
  lemma PassBy(t: seq<Event>, e: Event, held: Option<string>)
    requires Balanced(t, held) && (e.Wrote? || e.Prepared?)
    ensures Balanced(t + [e], held)
  {
    assert (t + [e])[..|t|] == t;
    assert Issues(e) == Spends(e) == multiset{};
  }

  lemma Discard(t: seq<Event>, held: Option<string>)
    requires Balanced(t, held)
    ensures Balanced(t, None)
  {
  }

  lemma {:induction false} LedgersGrow(t: seq<Event>, n: nat, x: string)
    requires n <= |t|
    ensures Issued(t[..n])[x] <= Issued(t)[x]
    ensures Spent(t[..n])[x] <= Spent(t)[x]
  {
    if n < |t| {
      LedgersGrow(t[..|t| - 1], n, x);
      assert t[..|t| - 1][..n] == t[..n];
    } else {
      assert t[..n] == t;
    }
  }

  lemma {:induction false} FrugalPrefix(t: seq<Event>, n: nat)
    requires Frugal(t) && n <= |t|
    ensures Frugal(t[..n])
  {
    hide Spent, Issued;
    if n < |t| {
      FrugalPrefix(t[..|t| - 1], n);
      assert t[..|t| - 1][..n] == t[..n];
    } else {
      assert t[..n] == t;
    }
  }

  lemma SpentBefore(t: seq<Event>, j: nat)
    requires Frugal(t) && j < |t| && t[j].Posted?
    ensures Spent(t[..j])[t[j].nonce] + 1 <= Issued(t[..j])[t[j].nonce]
  {
    FrugalPrefix(t, j + 1);
    hide Issued, Issues;
    assert t[..j + 1][..j] == t[..j];
    assert Spent(t[..j + 1]) == Spent(t[..j]) + multiset{t[j].nonce};
  }

  lemma SpentAfter(t: seq<Event>, i: nat)
    requires i < |t| && t[i].Posted?
    ensures Spent(t)[t[i].nonce] >= 1
  {
    assert t[..i + 1][..i] == t[..i];
    assert Spent(t[..i + 1])[t[i].nonce] >= 1;
    LedgersGrow(t, i + 1, t[i].nonce);
  }

  /** When the server never repeats a nonce, no two signed requests carry the same one, and each was received first. */
  lemma NoncesAreFresh(t: seq<Event>, i: nat, j: nat)
    requires Frugal(t)
    requires forall x :: Issued(t)[x] <= 1
    requires i < j < |t| && t[i].Posted? && t[j].Posted?
    ensures t[i].nonce != t[j].nonce
    ensures t[j].nonce in Issued(t[..j])
  {
    hide *;
    var x := t[j].nonce;
    SpentBefore(t, j);
    LedgersGrow(t, j, x);
    assert t[..j][i] == t[i];
    SpentAfter(t[..j], i);
  }

  // -- One signed request with its retries -------------------------------------------------------

  function Posts(t: seq<Event>): nat {
    if |t| == 0 then 0 else Posts(t[..|t| - 1]) + (if t[|t| - 1].Posted? then 1 else 0)
  }

  function Last(t: seq<Event>): Event
    requires t != []
  {
    t[|t| - 1]
  }

  /** Events of one request: nonces fetched, the request itself, and every answer but the last a badNonce. */
  ghost predicate Attempts(t: seq<Event>, url: string, account: Account, payload: Payload) {
    forall e | e in t ::
      (e.Headed? && e.reply.Some?)
      || (&& e.Posted? && e.url == url && e.account == account && e.payload == payload
          && e.reply.Some? && BadNonce(e.reply.value))
  }

  /** What a failure means of the event it was decided on. */
  ghost predicate Explains(f: Failure, e: Event) {
    match f
    case NoDomains => false
    case NoThumbprint => false
    case Transport => (e.Fetched? || e.Headed? || e.Posted?) && e.reply.None?
    case NoNonce => e.Headed? && e.reply.Some? && e.reply.value.nonce.None?
    case Signing => e.Unsigned?
    case Refused => (e.Fetched? || e.Posted?) && e.reply.Some? && !Success(e.reply.value)
    case NoDirectory => e.Fetched? && e.reply.Some? && Success(e.reply.value) && e.reply.value.body.directory.None?
    case NotJson => Answered(e) && e.reply.value.body.json.None?
    case NoLocation => Answered(e) && e.reply.value.location.None?
    case NoChallenge => Told(e) && !Says(Doc(e), "valid") && Http01(Doc(e)).None?
    case NoToken => Told(e) && Http01(Doc(e)).Some? && Http01(Doc(e)).value.token.None?
    case NoUrl => Told(e) && Http01(Doc(e)).Some? && Http01(Doc(e)).value.url.None?
    case Invalid => Told(e) && Says(Doc(e), "invalid")
    case Late => Told(e) && !Says(Doc(e), "valid") && !Says(Doc(e), "invalid") && e.reply.value.late
    case NoCertificate => Told(e) && Says(Doc(e), "valid") && Doc(e).certificate.None?
    case NotPem => Answered(e) && !IsPem(e.reply.value.body)
    case NotWritten => e.Wrote? && !e.done
    case NoKey => e == Prepared(false)
  }

  /** A signed request that was answered with success. */
  predicate Answered(e: Event) {
    e.Posted? && e.reply.Some? && Success(e.reply.value)
  }

  /** A signed request that was answered with a document. */
  predicate Told(e: Event) {
    Answered(e) && e.reply.value.body.json.Some?
  }

  function Doc(e: Event): Document
    requires Told(e)
  {
    e.reply.value.body.json.value
  }

  predicate IsPem(body: Body) {
    body.text.Some? && Contains(body.text.value, "BEGIN CERTIFICATE")
  }

  /** One request: at most four signed posts, all alike, each but the last answered with badNonce. */
  ghost predicate PostRun(
    t: seq<Event>, url: string, account: Account, payload: Payload, r: Result<Response, Failure>)
  {
    && t != [] && Posts(t) <= 4
    && Attempts(t[..|t| - 1], url, account, payload)
    && (match r
        case Ok(v) =>
          PostedAs(Last(t), url, account, payload) && Last(t).reply == Some(v) && (BadNonce(v) ==> Posts(t) == 4)
        case Err(f) =>
          && (f.Transport? || f.NoNonce? || f.Signing?) && Explains(f, Last(t))
          && (Last(t).Posted? ==> PostedAs(Last(t), url, account, payload)))
  }

  /** One try: a nonce fetched if none was held, then the request or the step that stopped it. */
  ghost predicate TryRun(t: seq<Event>, url: string, account: Account, payload: Payload, r: Result<Response, Failure>) {
    && (|t| == 1 || (|t| == 2 && t[0].Headed? && t[0].reply.Some?))
    && (match r
        case Ok(v) => PostedAs(Last(t), url, account, payload) && Last(t).reply == Some(v)
        case Err(f) =>
          && (f.Transport? || f.NoNonce? || f.Signing?) && Explains(f, Last(t))
          && (Last(t).Posted? ==> PostedAs(Last(t), url, account, payload)))
  }

  lemma UnsentTry(e: Event, url: string, account: Account, payload: Payload, f: Failure)
    requires e.Headed? && Explains(f, e) && (f.Transport? || f.NoNonce?)
    ensures TryRun([e], url, account, payload, Err(f))
  {
  }

  lemma SentTry(head: seq<Event>, e: Event, url: string, account: Account, payload: Payload)
    requires head == [] || (|head| == 1 && head[0].Headed? && head[0].reply.Some?)
    requires PostedAs(e, url, account, payload)
    ensures TryRun(head + [e], url, account, payload, if e.reply.Some? then Ok(e.reply.value) else Err(Transport))
  {
  }

  lemma UnsignedTry(head: seq<Event>, url: string, account: Account, payload: Payload)
    requires head == [] || (|head| == 1 && head[0].Headed? && head[0].reply.Some?)
    ensures TryRun(head + [Unsigned], url, account, payload, Err(Signing))
  {
  }

  /** What a poll that ends the polling explains. */
  lemma PollExplains(t: seq<Event>, url: string, account: Account)
    requires t != [] && Told(Last(t)) && Only(t, url, account, Read)
    ensures var e := Last(t); Says(Doc(e), "valid") ==> ReadsValid(e, url)
    ensures var e := Last(t); Says(Doc(e), "invalid") ==> Explains(Invalid, e)
    ensures var e := Last(t);
      !Says(Doc(e), "valid") && !Says(Doc(e), "invalid") && e.reply.value.late ==> Explains(Late, e)
    ensures var e := Last(t); Says(Doc(e), "valid") && Doc(e).certificate.None? ==> Explains(NoCertificate, e)
  {
  }

  lemma RefusedExplains(e: Event)
    ensures e.Posted? && e.reply.Some? && !Success(e.reply.value) ==> Explains(Refused, e)
    ensures e.Wrote? && !e.done ==> Explains(NotWritten, e)
  {
  }

  lemma NoAttempts(url: string, account: Account, payload: Payload)
    ensures Attempts([], url, account, payload) && Posts([]) == 0
  {
  }

  lemma OneMoreEvent(t: seq<Event>, e: Event)
    ensures Posts(t + [e]) == Posts(t) + (if e.Posted? then 1 else 0)
  {
    assert (t + [e])[..|t|] == t;
  }

  lemma AttemptsGrow(t: seq<Event>, e: Event, url: string, account: Account, payload: Payload)
    requires Attempts(t, url, account, payload)
    requires (e.Headed? && e.reply.Some?)
      || (PostedAs(e, url, account, payload) && e.reply.Some? && BadNonce(e.reply.value))
    ensures Attempts(t + [e], url, account, payload)
  {
    hide BadNonce;
  }

  lemma OneMoreTry(
    done: seq<Event>, t: seq<Event>, url: string, account: Account, payload: Payload, r: Result<Response, Failure>)
    requires Attempts(done, url, account, payload) && Posts(done) <= 3
    requires TryRun(t, url, account, payload, r)
    ensures r.Ok? ==> Posts(done + t) == Posts(done) + 1
    ensures r.Ok? && BadNonce(r.value) ==> Attempts(done + t, url, account, payload)
    ensures (r.Ok? && BadNonce(r.value) && Posts(done) < 3) || PostRun(done + t, url, account, payload, r)
  {
    hide Posts, BadNonce, Explains, Attempts;
    var front := done + t[..|t| - 1];
    assert done + t == front + [Last(t)];
    OneMoreEvent(front, Last(t));
    if |t| == 2 {
      assert front == done + [t[0]];
      OneMoreEvent(done, t[0]);
      AttemptsGrow(done, t[0], url, account, payload);
    } else {
      assert front == done;
    }
    if r.Ok? && BadNonce(r.value) { AttemptsGrow(front, Last(t), url, account, payload); }
    assert (done + t)[..|done + t| - 1] == front && Last(done + t) == Last(t);
  }

  ghost predicate PostedAs(e: Event, url: string, account: Account, payload: Payload) {
    e.Posted? && e.url == url && e.account == account && e.payload == payload
  }

  // -- What must come before a request -----------------------------------------------------------

  /** The server answered a read of this authorization with status valid. */
  ghost predicate SeenValid(t: seq<Event>, url: string) {
    exists i :: 0 <= i < |t| && ReadsValid(t[i], url)
  }

  ghost predicate ReadsValid(e: Event, url: string) {
    Told(e) && e.url == url && e.payload == Read && Says(Doc(e), "valid")
  }

  /** The http-01 challenge at url was offered, and then its token was written under the right proof. */
  ghost predicate Answerable(before: seq<Event>, url: string, thumbprint: string) {
    exists h, j :: 0 <= h < j < |before| && Offers(before[h], url, before[j], thumbprint)
  }

  ghost predicate Offers(offer: Event, url: string, written: Event, thumbprint: string) {
    && Told(offer) && Http01(Doc(offer)).Some?
    && Http01(Doc(offer)).value.url == Some(url)
    && Http01(Doc(offer)).value.token.Some?
    && var token := Http01(Doc(offer)).value.token.value;
    written == Wrote(token, Proof(token, thumbprint), true)
  }

  /** The order this event placed: where it lives, what it lists, and where its certificate request goes. */
  ghost predicate Places(e: Event, d: Directory, domains: seq<string>, order: Order) {
    && Told(e) && e.url == d.newOrder && e.payload == Identifiers(domains)
    && e.reply.value.location.Some?
    && order == OrderOf(e.reply.value.location.value, Doc(e))
  }

  ghost predicate AllSeen(before: seq<Event>, authorizations: seq<string>) {
    forall a | a in authorizations :: SeenValid(before, a)
  }

  /** An order for these names was placed, its requests go to url, and each authorization it lists was seen valid. */
  ghost predicate Entitled(before: seq<Event>, d: Directory, names: seq<string>, url: string) {
    exists o, order :: 0 <= o < |before| && Places(before[o], d, names, order)
      && order.finalize == url && AllSeen(before, order.authorizations)
  }

  /** The server named kid as this account's URL. */
  ghost predicate Granted(before: seq<Event>, d: Directory, kid: string) {
    exists i :: 0 <= i < |before| && Grants(before[i], d, kid)
  }

  ghost predicate Grants(e: Event, d: Directory, kid: string) {
    Answered(e) && e.url == d.newAccount && e.reply.value.location == Some(kid)
  }

  /** Once a request named the account by its URL, account is that URL. */
  ghost predicate Settled(before: seq<Event>, account: Account) {
    forall e | e in before :: e.Posted? && e.account.Kid? ==> e.account == account
  }

  /** A request the events before it allow. */
  ghost predicate Allowed(before: seq<Event>, e: Event, d: Directory, thumbprint: string) {
    e.Posted? ==>
      && Settled(before, e.account)
      && (e.account.Jwk? <==> e.payload.LookUp? || e.payload.Register?)
      && (e.account.Jwk? ==> e.url == d.newAccount)
      && (e.account.Kid? ==> Granted(before, d, e.account.url))
      && (e.payload.Ready? ==> Answerable(before, e.url, thumbprint))
      && (e.payload.Csr? ==> Entitled(before, d, e.payload.names, e.url))
  }

  /** Every request of the run is allowed by what came before it. */
  ghost predicate Ordered(t: seq<Event>, d: Directory, thumbprint: string) {
    forall i :: 0 <= i < |t| ==> Allowed(t[..i], t[i], d, thumbprint)
  }

  /** A finished run: order placed, authorizations seen, request sent, order seen valid, and only then the download. */
  ghost predicate Completed(t: seq<Event>, d: Directory, domains: seq<string>, pem: string) {
    exists o, c, v, order ::
      && 0 <= o < c < v < |t| - 1
      && Places(t[o], d, domains, order)
      && AllSeen(t[..c], order.authorizations)
      && Finishes(t[c], t[v], t[|t| - 1], order, domains, pem)
  }

  /** The three last milestones: the request accepted, the order read valid, the chain downloaded from where it said. */
  ghost predicate Finishes(sent: Event, valid: Event, last: Event, order: Order, domains: seq<string>, pem: string) {
    && Answered(sent) && sent.url == order.finalize && sent.payload == Csr(domains)
    && ReadsValid(valid, order.url)
    && Answered(last) && last.payload == Read && Doc(valid).certificate == Some(last.url)
    && last.reply.value.body.text == Some(pem) && Contains(pem, "BEGIN CERTIFICATE")
  }

  // -- Putting runs together ---------------------------------------------------------------------

  /** All the requests of t are this one. */
  ghost predicate Only(t: seq<Event>, url: string, account: Account, payload: Payload) {
    forall e | e in t :: e.Posted? ==> PostedAs(e, url, account, payload)
  }

  lemma OnlyNothing(url: string, account: Account, payload: Payload)
    ensures Only([], url, account, payload)
  {
  }

  lemma OnlyJoin(a: seq<Event>, b: seq<Event>, url: string, account: Account, payload: Payload)
    requires Only(a, url, account, payload) && Only(b, url, account, payload)
    ensures Only(a + b, url, account, payload)
  {
  }

  lemma PostRunOnly(t: seq<Event>, url: string, account: Account, payload: Payload, r: Result<Response, Failure>)
    requires PostRun(t, url, account, payload, r)
    ensures t != [] && Only(t, url, account, payload)
    ensures r.Ok? ==> PostedAs(Last(t), url, account, payload) && Last(t).reply == Some(r.value)
    ensures r.Err? ==> Explains(r.error, Last(t)) && !r.error.Refused?
  {
    hide BadNonce, Posts;
    assert t == t[..|t| - 1] + [Last(t)];
  }

  /** All the requests of t speak for account, and each challenge t answers is answerable within t. */
  ghost predicate Steps(t: seq<Event>, account: Account, thumbprint: string) {
    forall i :: 0 <= i < |t| && t[i].Posted? ==>
      && t[i].account == account
      && (t[i].payload.Ready? ==> Answerable(t[..i], t[i].url, thumbprint))
  }

  lemma OnlySteps(t: seq<Event>, url: string, account: Account, payload: Payload, thumbprint: string)
    requires Only(t, url, account, payload) && !payload.Ready?
    ensures Steps(t, account, thumbprint)
  {
    forall i | 0 <= i < |t| && t[i].Posted?
      ensures t[i].account == account && !t[i].payload.Ready?
    {
      assert t[i] in t;
    }
  }

  /** Apart from answers to challenges, the requests of t read this URL. */
  ghost predicate Visits(t: seq<Event>, url: string) {
    forall e | e in t :: e.Posted? ==> e.payload.Ready? || (e.payload == Read && e.url == url)
  }

  /** A solved authorization was last read valid; a failure is explained by the last event. */
  ghost predicate SolveRun(
    t: seq<Event>, url: string, account: Account, thumbprint: Option<string>, r: Result<string, Failure>)
  {
    if thumbprint.None? then t == [] && r == Err(NoThumbprint)
    else
      && t != [] && Steps(t, account, thumbprint.value) && Visits(t, url)
      && (match r
          case Ok(name) => ReadsValid(Last(t), url) && exists e :: e in t && Names(e, url, name)
          case Err(f) => Explains(f, Last(t)))
  }

  ghost predicate Names(e: Event, url: string, name: string) {
    Told(e) && e.url == url && e.payload == Read && NameOf(Doc(e)) == name
  }

  function NameOf(d: Document): string {
    if d.identifier.Some? then d.identifier.value else "?"
  }

  /** The token was written first; then only answers to its challenge and reads of the authorization. */
  ghost predicate ProveRun(
    t: seq<Event>, url: string, account: Account, token: string, challengeUrl: string, thumbprint: string,
    r: Result<string, Failure>)
  {
    && t != [] && t[0].Wrote? && t[0].token == token && t[0].proof == Proof(token, thumbprint)
    && (|t| > 1 ==> t[0].done)
    && (forall e | e in t :: e.Posted? ==>
          PostedAs(e, challengeUrl, account, Ready) || PostedAs(e, url, account, Read))
    && (match r
        case Ok(_) => ReadsValid(Last(t), url)
        case Err(f) => Explains(f, Last(t)))
  }

  lemma Unwritten(
    w: Event, url: string, account: Account, token: string, challengeUrl: string, thumbprint: string)
    requires w == Wrote(token, Proof(token, thumbprint), false)
    ensures ProveRun([w], url, account, token, challengeUrl, thumbprint, Err(NotWritten))
  {
  }

  lemma Untold(
    w: Event, t: seq<Event>, url: string, account: Account, token: string, challengeUrl: string, thumbprint: string,
    r: Result<string, Failure>)
    requires w == Wrote(token, Proof(token, thumbprint), true)
    requires t != [] && Only(t, challengeUrl, account, Ready) && r.Err? && Explains(r.error, Last(t))
    ensures ProveRun([w] + t, url, account, token, challengeUrl, thumbprint, r)
  {
    hide Explains;
  }

  lemma Awaited(
    w: Event, t: seq<Event>, read: seq<Event>, url: string, account: Account, token: string, challengeUrl: string,
    thumbprint: string, r: Result<string, Failure>)
    requires w == Wrote(token, Proof(token, thumbprint), true)
    requires Only(t, challengeUrl, account, Ready) && read != [] && Only(read, url, account, Read)
    requires if r.Ok? then ReadsValid(Last(read), url) else Explains(r.error, Last(read))
    ensures ProveRun([w] + t + read, url, account, token, challengeUrl, thumbprint, r)
  {
    hide Explains, ReadsValid;
  }

  lemma Proves(
    read: seq<Event>, t: seq<Event>, url: string, account: Account, thumbprint: string, name: string,
    r: Result<string, Failure>)
    requires read != [] && Only(read, url, account, Read) && Names(Last(read), url, name)
    requires var c := Http01(Doc(Last(read)));
      && c.Some? && c.value.token.Some? && c.value.url.Some?
      && ProveRun(t, url, account, c.value.token.value, c.value.url.value, thumbprint, r)
    requires r.Ok? ==> r.value == name
    ensures SolveRun(read + t, url, account, Some(thumbprint), r)
  {
    hide Explains, Http01, ReadsValid;
    var all := read + t;
    assert Last(all) == Last(t);
    assert Last(read) in all;
    var challengeUrl := Http01(Doc(Last(read))).value.url.value;
    forall i | 0 <= i < |all| && all[i].Posted?
      ensures all[i].account == account
      ensures all[i].payload.Ready? ==> Answerable(all[..i], all[i].url, thumbprint)
    {
      if i < |read| {
        assert all[i] in read;
      } else {
        assert all[i] in t;
        if all[i].payload.Ready? {
          assert all[..i][|read| - 1] == Last(read) && all[..i][|read|] == t[0];
          assert Offers(Last(read), challengeUrl, t[0], thumbprint);
        }
      }
    }
  }

  lemma NotTried(url: string, account: Account)
    ensures SolveRun([], url, account, None, Err(NoThumbprint))
  {
  }

  /** A first reading already decides: the authorization is valid, or something it lacks stops the run. */
  lemma Decides(read: seq<Event>, url: string, account: Account, thumbprint: string, r: Result<string, Failure>)
    requires read != [] && Only(read, url, account, Read)
    requires r.Ok? ==> ReadsValid(Last(read), url) && Names(Last(read), url, r.value)
    requires r.Err? ==> Explains(r.error, Last(read))
    ensures SolveRun(read, url, account, Some(thumbprint), r)
  {
    hide Explains, Answerable;
    OnlySteps(read, url, account, Read, thumbprint);
    assert Last(read) in read;
  }

  /**
   * The certificate request went to the order's finalize URL until accepted, and then the order was read until
   * decided.
   */
  ghost predicate FinalizeRun(
    t: seq<Event>, order: Order, names: seq<string>, account: Account, r: Result<string, Failure>)
  {
    && t != []
    && (forall e | e in t :: e.Posted? ==>
          PostedAs(e, order.finalize, account, Csr(names)) || PostedAs(e, order.url, account, Read))
    && (match r
        case Ok(certificate) =>
          && ReadsValid(Last(t), order.url) && Doc(Last(t)).certificate == Some(certificate)
          && exists i :: 0 <= i < |t| - 1 && Answered(t[i]) && PostedAs(t[i], order.finalize, account, Csr(names))
        case Err(f) => Explains(f, Last(t)))
  }

  lemma Finalizes(
    sent: seq<Event>, polls: seq<Event>, order: Order, names: seq<string>, account: Account, r: Result<string, Failure>)
    requires sent != [] && Only(sent, order.finalize, account, Csr(names)) && Only(polls, order.url, account, Read)
    requires polls == [] ==> r.Err? && Explains(r.error, Last(sent))
    requires polls != [] ==> Answered(Last(sent)) && PostedAs(Last(sent), order.finalize, account, Csr(names))
    requires polls != [] && r.Ok? ==>
      ReadsValid(Last(polls), order.url) && Doc(Last(polls)).certificate == Some(r.value)
    requires polls != [] && r.Err? ==> Explains(r.error, Last(polls))
    ensures FinalizeRun(sent + polls, order, names, account, r)
  {
    hide Explains, ReadsValid;
    var t := sent + polls;
    if polls == [] {
      assert t == sent;
    } else {
      assert t[|sent| - 1] == Last(sent) && Last(t) == Last(polls);
    }
  }

  lemma AnswerableLater(pre: seq<Event>, t: seq<Event>, post: seq<Event>, url: string, thumbprint: string)
    requires Answerable(t, url, thumbprint)
    ensures Answerable(pre + t + post, url, thumbprint)
  {
    hide Offers;
    var h, j :| 0 <= h < j < |t| && Offers(t[h], url, t[j], thumbprint);
    var all := pre + t + post;
    assert all[|pre| + h] == t[h] && all[|pre| + j] == t[j];
  }

  lemma SeenLater(pre: seq<Event>, t: seq<Event>, post: seq<Event>, url: string)
    requires SeenValid(t, url)
    ensures SeenValid(pre + t + post, url)
  {
    hide ReadsValid;
    var i :| 0 <= i < |t| && ReadsValid(t[i], url);
    assert (pre + t + post)[|pre| + i] == t[i];
  }

  lemma AllSeenLater(t: seq<Event>, post: seq<Event>, authorizations: seq<string>)
    requires AllSeen(t, authorizations)
    ensures AllSeen(t + post, authorizations)
  {
    hide SeenValid;
    forall a | a in authorizations ensures SeenValid(t + post, a) {
      SeenLater([], t, post, a);
      assert [] + t + post == t + post;
    }
  }

  lemma EntitledNow(run: seq<Event>, o: nat, d: Directory, names: seq<string>, order: Order)
    requires o < |run| && Places(run[o], d, names, order) && AllSeen(run, order.authorizations)
    ensures Entitled(run, d, names, order.finalize)
  {
    hide AllSeen;
  }

  lemma EntitledLater(t: seq<Event>, post: seq<Event>, d: Directory, names: seq<string>, url: string)
    requires Entitled(t, d, names, url)
    ensures Entitled(t + post, d, names, url)
  {
    hide Places, AllSeen;
    var o, order :|
      0 <= o < |t| && Places(t[o], d, names, order) && order.finalize == url && AllSeen(t, order.authorizations);
    AllSeenLater(t, post, order.authorizations);
    assert (t + post)[o] == t[o];
  }

  lemma GrantedLater(t: seq<Event>, post: seq<Event>, d: Directory, kid: string)
    requires Granted(t, d, kid)
    ensures Granted(t + post, d, kid)
  {
    hide Grants;
    var i :| 0 <= i < |t| && Grants(t[i], d, kid);
    assert (t + post)[i] == t[i];
  }

  /** A run in order whose requests from here on speak for the account the server named. */
  ghost predicate Going(run: seq<Event>, d: Directory, thumbprint: string, kid: string) {
    Ordered(run, d, thumbprint) && Settled(run, Kid(kid)) && Granted(run, d, kid)
  }

  lemma GoingIsOrdered(run: seq<Event>, d: Directory, thumbprint: string, kid: string)
    requires Going(run, d, thumbprint, kid)
    ensures Ordered(run, d, thumbprint)
  {
  }

  lemma NoKeyExplains()
    ensures Explains(NoKey, Prepared(false))
  {
  }

  /** A run goes on in order with steps of its settled account, if every certificate request among them is entitled. */
  lemma GoOn(run: seq<Event>, t: seq<Event>, d: Directory, thumbprint: string, kid: string)
    requires Going(run, d, thumbprint, kid)
    requires Steps(t, Kid(kid), thumbprint)
    requires forall e | e in t && e.Posted? :: !e.payload.LookUp? && !e.payload.Register?
    requires forall e | e in t && e.Posted? && e.payload.Csr? :: Entitled(run, d, e.payload.names, e.url)
    ensures Going(run + t, d, thumbprint, kid)
  {
    hide Answerable, Entitled, Granted;
    GrantedLater(run, t, d, kid);
    forall i | 0 <= i < |run + t| ensures Allowed((run + t)[..i], (run + t)[i], d, thumbprint) {
      if i < |run| {
        assert (run + t)[..i] == run[..i];
      } else if t[i - |run|].Posted? {
        var k := i - |run|;
        assert (run + t)[..i] == run + t[..k] == run + t[..k] + [];
        var e := t[k];
        assert e in t;
        GrantedLater(run, t[..k], d, kid);
        SettledMore(run, t[..k], kid);
        if e.payload.Ready? { AnswerableLater(run, t[..k], [], e.url, thumbprint); }
        if e.payload.Csr? { EntitledLater(run, t[..k], d, e.payload.names, e.url); }
      }
    }
    SettledMore(run, t, kid);
  }

  lemma SettledMore(run: seq<Event>, t: seq<Event>, kid: string)
    requires Settled(run, Kid(kid))
    requires forall i | 0 <= i < |t| && t[i].Posted? :: t[i].account == Kid(kid)
    ensures Settled(run + t, Kid(kid))
  {
    forall e | e in run + t && e.Posted? && e.account.Kid? ensures e.account == Kid(kid) {
      if e !in run {
        var i :| 0 <= i < |t| && t[i] == e;
      }
    }
  }

  /** All the requests of t ask newAccount about the account, under the key itself. */
  ghost predicate Asks(t: seq<Event>, d: Directory) {
    forall e | e in t :: e.Posted? ==>
      e.url == d.newAccount && e.account == Jwk && (e.payload.LookUp? || e.payload.Register?)
  }

  /** A first stretch that finds or makes the account leaves a run in order, settled on the URL it was given. */
  lemma SetOut(first: Event, t: seq<Event>, d: Directory, thumbprint: string)
    requires !first.Posted? && Asks(t, d)
    ensures Ordered([first] + t, d, thumbprint)
    ensures forall kid | t != [] && Grants(Last(t), d, kid) :: Going([first] + t, d, thumbprint, kid)
  {
    hide Answerable, Entitled, Grants;
    var run := [first] + t;
    forall e | e in run && e.Posted? ensures e in t {
    }
    forall i | 0 <= i < |run| ensures Allowed(run[..i], run[i], d, thumbprint) {
      assert run[i] in run;
      forall e | e in run[..i] && e.Posted? ensures e.account == Jwk {
        assert e in run;
      }
    }
    forall kid | t != [] && Grants(Last(t), d, kid) ensures Granted(run, d, kid) {
      assert run[|run| - 1] == Last(t);
    }
  }

  lemma OnlyGoesOn(
    run: seq<Event>, t: seq<Event>, url: string, payload: Payload, d: Directory, thumbprint: string, kid: string)
    requires Going(run, d, thumbprint, kid)
    requires Only(t, url, Kid(kid), payload) && (payload.Identifiers? || payload.Read?)
    ensures Going(run + t, d, thumbprint, kid)
  {
    hide Going, Steps;
    OnlySteps(t, url, Kid(kid), payload, thumbprint);
    GoOn(run, t, d, thumbprint, kid);
  }

  /** Events that are no requests change nothing about the order of a run. */
  lemma IdleGoesOn(run: seq<Event>, e: Event, d: Directory, thumbprint: string, kid: string)
    requires Going(run, d, thumbprint, kid) && !e.Posted?
    ensures Going(run + [e], d, thumbprint, kid)
  {
    hide Going;
    GoOn(run, [e], d, thumbprint, kid);
  }

  lemma SolveGoesOn(
    run: seq<Event>, t: seq<Event>, url: string, d: Directory, thumbprint: Option<string>, kid: string,
    r: Result<string, Failure>)
    requires Going(run, d, PrintOf(thumbprint), kid)
    requires SolveRun(t, url, Kid(kid), thumbprint, r)
    ensures Going(run + t, d, PrintOf(thumbprint), kid)
    ensures r.Ok? ==> SeenValid(run + t, url)
    ensures r.Err? ==>
      (thumbprint.None? && r.error == NoThumbprint) || (run + t != [] && Explains(r.error, Last(run + t)))
  {
    hide Going, Steps, ReadsValid, Explains;
    if thumbprint.None? {
      assert run + t == run;
    } else {
      GoOn(run, t, d, PrintOf(thumbprint), kid);
      assert Last(run + t) == Last(t);
    }
  }

  function PrintOf(thumbprint: Option<string>): string {
    if thumbprint.Some? then thumbprint.value else ""
  }

  lemma FinalizeGoesOn(
    run: seq<Event>, t: seq<Event>, order: Order, names: seq<string>, d: Directory, thumbprint: string, kid: string,
    r: Result<string, Failure>)
    requires Going(run, d, thumbprint, kid) && Entitled(run, d, names, order.finalize)
    requires FinalizeRun(t, order, names, Kid(kid), r)
    ensures Going(run + t, d, thumbprint, kid)
    ensures r.Err? ==> run + t != [] && Explains(r.error, Last(run + t))
  {
    assert Last(run + t) == Last(t);
    hide Going, Explains, Entitled;
    forall i | 0 <= i < |t| && t[i].Posted? ensures t[i].account == Kid(kid) && !t[i].payload.Ready? {
      assert t[i] in t;
    }
    GoOn(run, t, d, thumbprint, kid);
  }

  /** The milestones of a finished run, from the pieces it was put together from. */
  lemma Completes(
    run: seq<Event>, o: nat, order: Order, prepared: seq<Event>, fin: seq<Event>, down: seq<Event>,
    d: Directory, names: seq<string>, account: Account, certificate: string, pem: string)
    requires o < |run| && Places(run[o], d, names, order) && AllSeen(run, order.authorizations)
    requires FinalizeRun(fin, order, names, account, Ok(certificate))
    requires down != [] && Only(down, certificate, account, Read) && Answered(Last(down))
    requires Last(down).reply.value.body.text == Some(pem) && Contains(pem, "BEGIN CERTIFICATE")
    ensures Completed(run + prepared + fin + down, d, names, pem)
  {
    hide AllSeen, Places, Contains, EndsWith, BadNonce, Http01;
    var i :| 0 <= i < |fin| - 1 && Answered(fin[i]) && PostedAs(fin[i], order.finalize, account, Csr(names));
    var all := run + prepared + fin + down;
    var c, v := |run + prepared| + i, |run + prepared + fin| - 1;
    assert all[o] == run[o] && all[c] == fin[i] && all[v] == Last(fin) && all[|all| - 1] == Last(down);
    assert Last(down) in down;
    assert all[..c] == run + (prepared + fin[..i]);
    AllSeenLater(run, prepared + fin[..i], order.authorizations);
    assert Finishes(all[c], all[v], all[|all| - 1], order, names, pem);
  }

  // -- A whole issuance --------------------------------------------------------------------------

  /** The directory a first fetch found. */
  function DirectoryOf(e: Event): Option<Directory> {
    if e.Fetched? && e.reply.Some? && Success(e.reply.value) then e.reply.value.body.directory else None
  }

  /** A whole issuance: the directory first, then requests in order, and a result that the events account for. */
  ghost predicate IssueRun(
    t: seq<Event>, url: string, thumbprint: Option<string>, domains: seq<string>, r: Result<string, Failure>)
  {
    && t != [] && t[0].Fetched? && t[0].url == url
    && (DirectoryOf(t[0]).None? ==> |t| == 1 && r.Err?)
    && (DirectoryOf(t[0]).Some? ==> Ordered(t, DirectoryOf(t[0]).value, PrintOf(thumbprint)))
    && (match r
        case Ok(pem) => DirectoryOf(t[0]).Some? && Completed(t, DirectoryOf(t[0]).value, domains, pem)
        case Err(f) => Accounted(f, Last(t), thumbprint, domains))
  }

  lemma NoDirectoryRun(first: Event, url: string, thumbprint: Option<string>, domains: seq<string>, f: Failure)
    requires first.Fetched? && first.url == url && DirectoryOf(first).None? && Explains(f, first)
    ensures IssueRun([first], url, thumbprint, domains, Err(f))
  {
  }

  /** Why a run with a directory failed. */
  ghost predicate Accounted(f: Failure, last: Event, thumbprint: Option<string>, domains: seq<string>) {
    || (f.NoDomains? && domains == [])
    || (f.NoThumbprint? && thumbprint.None?)
    || Explains(f, last)
  }

  lemma OrderedRun(
    t: seq<Event>, url: string, thumbprint: Option<string>, domains: seq<string>, r: Result<string, Failure>)
    requires t != [] && t[0].Fetched? && t[0].url == url && DirectoryOf(t[0]).Some?
    requires Ordered(t, DirectoryOf(t[0]).value, PrintOf(thumbprint))
    requires r.Ok? ==> Completed(t, DirectoryOf(t[0]).value, domains, r.value)
    requires r.Err? ==> Accounted(r.error, Last(t), thumbprint, domains)
    ensures IssueRun(t, url, thumbprint, domains, r)
  {
    hide Ordered, Completed, Explains;
  }
}
