/** What a whole issuance does, said of the fields of its requests and answers alone. */
module AcmeConduct {
  import opened Wrappers
  import opened AcmeTrace

  // -- Answers ------------------------------------------------------------------------------------

  /** A request that was answered 2xx. */
  predicate Taken(e: Event, url: string, payload: Payload) {
    && e.Posted? && e.url == url && e.payload == payload && e.reply.Some?
    && 200 <= e.reply.value.status <= 299
  }

  /** A request that was answered 2xx with this document. */
  predicate Shows(e: Event, url: string, payload: Payload, d: Document) {
    Taken(e, url, payload) && e.reply.value.body.json == Some(d)
  }

  /** An order for these names, described by this document, was placed at location. */
  predicate Opens(e: Event, newOrder: string, names: seq<string>, location: string, d: Document) {
    Shows(e, newOrder, Identifiers(names), d) && e.reply.value.location == Some(location)
  }

  predicate ShownValid(e: Event, url: string, d: Document) {
    Shows(e, url, Read, d) && d.status == Some("valid")
  }

  ghost predicate WasValid(t: seq<Event>, url: string) {
    exists i, d | 0 <= i < |t| :: ShownValid(t[i], url, d)
  }

  /** Every authorization the order document lists was read valid. */
  ghost predicate EachValid(t: seq<Event>, order: Document) {
    order.authorizations.Some? ==> forall a | Some(a) in order.authorizations.value :: WasValid(t, a)
  }

  predicate GoesTo(order: Document, url: string) {
    order.finalize == Some(url) || (order.finalize.None? && url == "")
  }

  /** These are the strings of the list, in its order. */
  ghost predicate Picks(entries: seq<Option<string>>, s: seq<string>) {
    exists at: seq<nat> :: PicksAt(entries, s, at)
  }

  ghost predicate PicksAt(entries: seq<Option<string>>, s: seq<string>, at: seq<nat>) {
    && |at| == |s| && (forall k | 0 <= k < |at| :: at[k] < |entries| && entries[at[k]] == Some(s[k]))
    && (forall j, k | 0 <= j < k < |at| :: at[j] < at[k])
    && forall i | 0 <= i < |entries| && entries[i].Some? :: i in at
  }

  ghost predicate Lists(order: Document, s: seq<string>) {
    if order.authorizations.Some? then Picks(order.authorizations.value, s) else s == []
  }

  function Moved(at: seq<nat>): (moved: seq<nat>)
    ensures |moved| == |at| && forall k | 0 <= k < |at| :: moved[k] == at[k] + 1
  {
    seq(|at|, k requires 0 <= k < |at| => at[k] + 1)
  }

  lemma PickSkips(entry: Option<string>, entries: seq<Option<string>>, s: seq<string>, at: seq<nat>)
    requires PicksAt(entries, s, at) && entry.None?
    ensures PicksAt([entry] + entries, s, Moved(at))
  {
    var all := [entry] + entries;
    forall i | 0 <= i < |all| && all[i].Some? ensures i in Moved(at) {
      assert all[i] == entries[i - 1];
      var k :| 0 <= k < |at| && at[k] == i - 1;
      assert Moved(at)[k] == i;
    }
  }

  lemma PickTakes(entry: Option<string>, entries: seq<Option<string>>, s: seq<string>, at: seq<nat>)
    requires PicksAt(entries, s, at) && entry.Some?
    ensures PicksAt([entry] + entries, [entry.value] + s, [0] + Moved(at))
  {
    var all, place, taken := [entry] + entries, [0] + Moved(at), [entry.value] + s;
    forall k | 0 <= k < |place|
      ensures place[k] < |all| && all[place[k]] == Some(taken[k]) && (k > 0 ==> place[k] == at[k - 1] + 1)
    {
    }
    forall i | 0 <= i < |all| && all[i].Some? ensures i in place {
      PlaceTaken(entry, entries, at, i);
    }
  }

  lemma PlaceTaken(entry: Option<string>, entries: seq<Option<string>>, at: seq<nat>, i: nat)
    requires i < |entries| + 1 && ([entry] + entries)[i].Some?
    requires forall j | 0 <= j < |entries| && entries[j].Some? :: j in at
    ensures i in [0] + Moved(at)
  {
    if i == 0 {
      assert ([0] + Moved(at))[0] == i;
    } else {
      assert ([entry] + entries)[i] == entries[i - 1];
      var k :| 0 <= k < |at| && at[k] == i - 1;
      assert ([0] + Moved(at))[k + 1] == i;
    }
  }

  lemma StringsStep(entries: seq<Option<string>>)
    requires |entries| > 0
    ensures entries == [entries[0]] + entries[1..]
    ensures entries[0].None? ==> Strings(entries) == Strings(entries[1..])
    ensures entries[0].Some? ==> Strings(entries) == [entries[0].value] + Strings(entries[1..])
  {
  }

  lemma NothingPicked()
    ensures PicksAt([], Strings([]), [])
  {
  }

  lemma {:induction false} StringsPick(entries: seq<Option<string>>) returns (at: seq<nat>)
    ensures PicksAt(entries, Strings(entries), at)
  {
    hide *;
    at := [];
    if entries == [] {
      NothingPicked();
    } else {
      var rest := StringsPick(entries[1..]);
      StringsStep(entries);
      if entries[0].Some? {
        PickTakes(entries[0], entries[1..], Strings(entries[1..]), rest);
        at := [0] + Moved(rest);
      } else {
        PickSkips(entries[0], entries[1..], Strings(entries[1..]), rest);
        at := Moved(rest);
      }
    }
  }

  /** What the client takes an order to be is what the answer says. */
  lemma OrderIsListed(location: string, d: Document)
    ensures var order := OrderOf(location, d);
      order.url == location && GoesTo(d, order.finalize) && Lists(d, order.authorizations)
  {
    if d.authorizations.Some? {
      var at := StringsPick(d.authorizations.value);
    }
  }

  // -- Certificate requests -----------------------------------------------------------------------------

  /** A document read valid at location names url as the certificate. */
  ghost predicate CertificateAt(t: seq<Event>, location: string, url: string) {
    exists v, d | 0 <= v < |t| :: ShownValid(t[v], location, d) && d.certificate == Some(url)
  }

  /** From place c on the request is repeated, the order is read at location, and the certificate where it says. */
  ghost predicate PollsOnly(t: seq<Event>, c: nat, location: string)
    requires c < |t| && t[c].Posted?
  {
    forall p | c < p < |t| && t[p].Posted? ::
      || (t[p].payload == t[c].payload && t[p].url == t[c].url)
      || (t[p].payload == Read && (t[p].url == location || CertificateAt(t[..p], location, t[p].url)))
  }

  /** The certificate request at c belongs to the order placed at o. */
  ghost predicate CsrFor(t: seq<Event>, c: nat, newOrder: string, o: nat, location: string, d: Document)
    requires c < |t| && t[c].Posted? && t[c].payload.Csr?
  {
    && o < c && Opens(t[o], newOrder, t[c].payload.names, location, d)
    && GoesTo(d, t[c].url) && EachValid(t[..c], d) && PollsOnly(t, c, location)
  }

  predicate SendsCsr(e: Event) {
    e.Posted? && e.payload.Csr?
  }

  /** Every certificate request belongs to an order placed before it, all of whose authorizations were read valid. */
  ghost predicate Conducted(t: seq<Event>, newOrder: string) {
    forall c: nat | c < |t| && SendsCsr(t[c]) :: exists o, location, d :: CsrFor(t, c, newOrder, o, location, d)
  }

  ghost predicate NoCsr(t: seq<Event>) {
    forall e | e in t :: !SendsCsr(e)
  }

  lemma NoCsrConducts(t: seq<Event>, newOrder: string)
    requires NoCsr(t)
    ensures Conducted(t, newOrder)
  {
  }

  lemma NoCsrJoin(a: seq<Event>, b: seq<Event>)
    requires NoCsr(a) && NoCsr(b)
    ensures NoCsr(a + b)
  {
  }

  lemma OnlyNoCsr(t: seq<Event>, url: string, account: Account, payload: Payload)
    requires Only(t, url, account, payload) && !payload.Csr?
    ensures NoCsr(t)
  {
  }

  lemma ReadsValidMeans(e: Event, url: string)
    requires ReadsValid(e, url)
    ensures ShownValid(e, url, Doc(e))
  {
  }

  lemma SeenWasValid(t: seq<Event>, post: seq<Event>, url: string)
    requires SeenValid(t, url)
    ensures WasValid(t + post, url)
  {
    var i :| 0 <= i < |t| && ReadsValid(t[i], url);
    ReadsValidMeans(t[i], url);
    assert (t + post)[i] == t[i];
  }

  lemma AllSeenEachValid(t: seq<Event>, post: seq<Event>, location: string, d: Document)
    requires AllSeen(t, OrderOf(location, d).authorizations)
    ensures EachValid(t + post, d)
  {
    if d.authorizations.Some? {
      hide SeenValid, WasValid;
      forall a | Some(a) in d.authorizations.value ensures WasValid(t + post, a) {
        assert a in OrderOf(location, d).authorizations;
        SeenWasValid(t, post, a);
      }
    }
  }

  lemma PlacesOpens(e: Event, d: Directory, names: seq<string>, order: Order)
    requires Places(e, d, names, order)
    ensures Told(e) && Opens(e, d.newOrder, names, order.url, Doc(e)) && order == OrderOf(order.url, Doc(e))
    ensures GoesTo(Doc(e), order.finalize)
  {
  }

  /** The last stretch of an issuance: the request, the polls, and the download. */
  lemma Conducts(
    run: seq<Event>, o: nat, order: Order, fin: seq<Event>, down: seq<Event>, d: Directory, names: seq<string>,
    account: Account, certificate: Result<string, Failure>)
    requires NoCsr(run) && o < |run| && Places(run[o], d, names, order) && AllSeen(run, order.authorizations)
    requires FinalizeRun(fin, order, names, account, certificate)
    requires if certificate.Err? then down == [] else Only(down, certificate.value, account, Read)
    ensures Conducted(run + fin + down, d.newOrder)
  {
    var all, doc := run + fin + down, Doc(run[o]);
    PlacesOpens(run[o], d, names, order);
    hide Places, AllSeen, EachValid, Opens, GoesTo, Explains, PollsOnly;
    forall c: nat | c < |all| && SendsCsr(all[c]) ensures CsrFor(all, c, d.newOrder, o, order.url, doc) {
      CsrPlace(run, fin, down, order, names, account, certificate, c);
      assert all[..c] == run + all[|run|..c];
      AllSeenEachValid(run, all[|run|..c], order.url, doc);
      assert all[o] == run[o];
      LaterPolls(run, fin, down, order, names, account, certificate, c);
    }
  }

  lemma CsrPlace(
    run: seq<Event>, fin: seq<Event>, down: seq<Event>, order: Order, names: seq<string>,
    account: Account, certificate: Result<string, Failure>, c: nat)
    requires NoCsr(run) && FinalizeRun(fin, order, names, account, certificate)
    requires if certificate.Err? then down == [] else Only(down, certificate.value, account, Read)
    requires c < |run + fin + down| && SendsCsr((run + fin + down)[c])
    ensures |run| <= c < |run| + |fin| && (run + fin + down)[c] == fin[c - |run|]
    ensures PostedAs(fin[c - |run|], order.finalize, account, Csr(names))
  {
    hide Explains, ReadsValid;
    InPart(run, fin, down, c);
  }

  lemma InPart(a: seq<Event>, b: seq<Event>, c: seq<Event>, k: nat)
    requires k < |a + b + c|
    ensures k < |a| ==> (a + b + c)[k] in a
    ensures |a| <= k < |a| + |b| ==> (a + b + c)[k] == b[k - |a|] && b[k - |a|] in b
    ensures |a| + |b| <= k ==> (a + b + c)[k] in c
  {
  }

  lemma LaterPolls(
    run: seq<Event>, fin: seq<Event>, down: seq<Event>, order: Order, names: seq<string>,
    account: Account, certificate: Result<string, Failure>, c: nat)
    requires FinalizeRun(fin, order, names, account, certificate)
    requires if certificate.Err? then down == [] else Only(down, certificate.value, account, Read)
    requires |run| <= c < |run| + |fin| && PostedAs(fin[c - |run|], order.finalize, account, Csr(names))
    ensures var all := run + fin + down; all[c].Posted? && PollsOnly(all, c, order.url)
  {
    hide Explains, ReadsValid;
    var all := run + fin + down;
    assert all[c] == fin[c - |run|];
    forall p | c < p < |all| && all[p].Posted?
      ensures
        || (all[p].payload == all[c].payload && all[p].url == all[c].url)
        || (all[p].payload == Read && (all[p].url == order.url || CertificateAt(all[..p], order.url, all[p].url)))
    {
      if p < |run| + |fin| {
        assert all[p] == fin[p - |run|] && fin[p - |run|] in fin;
      } else {
        assert all[p] in down;
        ReadsValidMeans(Last(fin), order.url);
        assert all[..p][|run| + |fin| - 1] == Last(fin);
      }
    }
  }

  // -- What is said -----------------------------------------------------------------------------------------

  /** Requests carry what the caller asked for. */
  ghost predicate Worded(t: seq<Event>, email: string, agreed: bool, domains: seq<string>) {
    forall e | e in t && e.Posted? ::
      && (e.payload.Register? ==> e.payload == Register(email, agreed))
      && (e.payload.Identifiers? ==> e.payload == Identifiers(domains))
      && (e.payload.Csr? ==> e.payload == Csr(domains))
  }

  lemma WordedJoin(a: seq<Event>, b: seq<Event>, email: string, agreed: bool, domains: seq<string>)
    requires Worded(a, email, agreed, domains) && Worded(b, email, agreed, domains)
    ensures Worded(a + b, email, agreed, domains)
  {
  }

  lemma OnlyWorded(
    t: seq<Event>, url: string, account: Account, payload: Payload, email: string, agreed: bool, domains: seq<string>)
    requires Only(t, url, account, payload)
    requires payload in {LookUp, Read, Ready, Register(email, agreed), Identifiers(domains), Csr(domains)}
    ensures Worded(t, email, agreed, domains)
  {
  }

  lemma FinalizeWorded(
    t: seq<Event>, order: Order, account: Account, r: Result<string, Failure>,
    email: string, agreed: bool, domains: seq<string>)
    requires FinalizeRun(t, order, domains, account, r)
    ensures Worded(t, email, agreed, domains)
  {
    hide Explains, ReadsValid;
  }

  /** Nothing but reads and answers to challenges. */
  ghost predicate Routine(t: seq<Event>) {
    forall e | e in t && e.Posted? :: e.payload.Read? || e.payload.Ready?
  }

  lemma SolveIsRoutine(
    t: seq<Event>, url: string, account: Account, thumbprint: Option<string>, r: Result<string, Failure>)
    requires SolveRun(t, url, account, thumbprint, r)
    ensures Routine(t)
  {
    hide Explains, ReadsValid, Steps;
  }

  lemma RoutineJoin(a: seq<Event>, b: seq<Event>)
    requires Routine(a) && Routine(b)
    ensures Routine(a + b)
  {
  }

  lemma NothingRoutine()
    ensures Routine([])
  {
  }

  /** A run that says what it was asked to say and has sent no certificate request yet. */
  ghost predicate Begun(t: seq<Event>, email: string, agreed: bool, domains: seq<string>) {
    NoCsr(t) && Worded(t, email, agreed, domains)
  }

  lemma BegunOnly(
    run: seq<Event>, t: seq<Event>, url: string, account: Account, payload: Payload,
    email: string, agreed: bool, domains: seq<string>)
    requires Begun(run, email, agreed, domains) && Only(t, url, account, payload)
    requires payload in {LookUp, Read, Ready, Register(email, agreed), Identifiers(domains)}
    ensures Begun(run + t, email, agreed, domains)
  {
    OnlyNoCsr(t, url, account, payload);
    OnlyWorded(t, url, account, payload, email, agreed, domains);
    hide Worded, NoCsr;
    NoCsrJoin(run, t);
    WordedJoin(run, t, email, agreed, domains);
  }

  /** All of t are these requests, and they are fit to begin with. */
  lemma StartsOnly(
    t: seq<Event>, url: string, account: Account, payload: Payload, email: string, agreed: bool, domains: seq<string>)
    requires Only(t, url, account, payload)
    requires payload in {LookUp, Read, Ready, Register(email, agreed), Identifiers(domains)}
    ensures Begun(t, email, agreed, domains)
  {
    BegunOnly([], t, url, account, payload, email, agreed, domains);
    assert [] + t == t;
  }

  lemma BegunFirst(first: Event, t: seq<Event>, email: string, agreed: bool, domains: seq<string>)
    requires !first.Posted? && Begun(t, email, agreed, domains)
    ensures Begun([first] + t, email, agreed, domains)
  {
  }

  lemma AsksOnly(t: seq<Event>, d: Directory, payload: Payload)
    requires Only(t, d.newAccount, Jwk, payload) && (payload.LookUp? || payload.Register?)
    ensures Asks(t, d)
  {
  }

  lemma AsksJoin(a: seq<Event>, b: seq<Event>, d: Directory)
    requires Asks(a, d) && Asks(b, d)
    ensures Asks(a + b, d)
  {
  }

  lemma BegunRoutine(run: seq<Event>, t: seq<Event>, email: string, agreed: bool, domains: seq<string>)
    requires Begun(run, email, agreed, domains) && Routine(t)
    ensures Begun(run + t, email, agreed, domains)
  {
  }

  lemma BegunIdle(run: seq<Event>, e: Event, email: string, agreed: bool, domains: seq<string>)
    requires Begun(run, email, agreed, domains) && !e.Posted?
    ensures Begun(run + [e], email, agreed, domains)
  {
  }

  lemma BegunConducts(t: seq<Event>, newOrder: string, email: string, agreed: bool, domains: seq<string>)
    requires Begun(t, email, agreed, domains)
    ensures Conducted(t, newOrder) && Worded(t, email, agreed, domains)
  {
    NoCsrConducts(t, newOrder);
  }

  /** The last stretch of an issuance, from the certificate request on. */
  lemma Closes(
    run: seq<Event>, o: nat, order: Order, fin: seq<Event>, down: seq<Event>, d: Directory, names: seq<string>,
    account: Account, certificate: Result<string, Failure>, email: string, agreed: bool)
    requires Begun(run, email, agreed, names)
    requires o < |run| && Places(run[o], d, names, order) && AllSeen(run, order.authorizations)
    requires FinalizeRun(fin, order, names, account, certificate)
    requires if certificate.Err? then down == [] else Only(down, certificate.value, account, Read)
    ensures Conducted(run + fin + down, d.newOrder) && Worded(run + fin + down, email, agreed, names)
  {
    Conducts(run, o, order, fin, down, d, names, account, certificate);
    FinalizeWorded(fin, order, account, certificate, email, agreed, names);
    if certificate.Ok? { OnlyWorded(down, certificate.value, account, Read, email, agreed, names); }
    hide Worded, NoCsr, FinalizeRun, Only, Places, AllSeen, Conducted;
    WordedJoin(run, fin, email, agreed, names);
    NothingWorded(email, agreed, names);
    WordedJoin(run + fin, down, email, agreed, names);
  }

  lemma NothingWorded(email: string, agreed: bool, domains: seq<string>)
    ensures Worded([], email, agreed, domains)
  {
  }

  // -- Accounts and challenges --------------------------------------------------------------------------------

  /** newAccount answered 2xx that this key has this account. */
  predicate Gives(e: Event, newAccount: string, kid: string) {
    && e.Posted? && e.url == newAccount && e.reply.Some? && 200 <= e.reply.value.status <= 299
    && e.reply.value.location == Some(kid)
  }

  /** The bare key speaks to newAccount only; everything else names one account, given before. */
  ghost predicate Accounts(t: seq<Event>, newAccount: string) {
    forall i | 0 <= i < |t| && t[i].Posted? ::
      match t[i].account
      case Jwk => t[i].url == newAccount && (t[i].payload.LookUp? || t[i].payload.Register?)
      case Kid(kid) =>
        && !t[i].payload.LookUp? && !t[i].payload.Register?
        && (exists g | 0 <= g < i :: Gives(t[g], newAccount, kid))
        && forall j | 0 <= j < i && t[j].Posted? && t[j].account.Kid? :: t[j].account == Kid(kid)
  }

  /** The k-th challenge of a document is the first of the http-01 kind, with this token and URL. */
  predicate Offered(d: Document, k: nat, token: string, url: string) {
    && d.challenges.Some? && k < |d.challenges.value|
    && d.challenges.value[k] == Challenge(Some("http-01"), Some(token), Some(url))
    && forall j | 0 <= j < k :: d.challenges.value[j].kind != Some("http-01")
  }

  /** A 2xx answer offers the challenge at url, and then the proof of its token is written. */
  ghost predicate Prepares(t: seq<Event>, h: nat, j: nat, k: nat, token: string, url: string, thumbprint: string) {
    && h < j < |t| && t[h].Posted? && t[h].reply.Some? && 200 <= t[h].reply.value.status <= 299
    && t[h].reply.value.body.json.Some? && Offered(t[h].reply.value.body.json.value, k, token, url)
    && t[j] == Wrote(token, Proof(token, thumbprint), true)
  }

  /** A challenge is answered only after it was offered and its proof written. */
  ghost predicate Answers(t: seq<Event>, thumbprint: string) {
    forall i | 0 <= i < |t| && t[i].Posted? && t[i].payload.Ready? ::
      exists h, j, k, token :: Prepares(t[..i], h, j, k, token, t[i].url, thumbprint)
  }

  lemma OrderedAccounts(t: seq<Event>, d: Directory, thumbprint: string)
    requires Ordered(t, d, thumbprint)
    ensures Accounts(t, d.newAccount)
  {
    hide Answerable, Entitled;
    forall i | 0 <= i < |t| && t[i].Posted? && t[i].account.Kid?
      ensures exists g | 0 <= g < i :: Gives(t[g], d.newAccount, t[i].account.url)
      ensures forall j | 0 <= j < i && t[j].Posted? && t[j].account.Kid? :: t[j].account == t[i].account
    {
      assert Allowed(t[..i], t[i], d, thumbprint);
      var g :| 0 <= g < |t[..i]| && Grants(t[..i][g], d, t[i].account.url);
      assert t[..i][g] == t[g];
      assert Gives(t[g], d.newAccount, t[i].account.url);
      forall j | 0 <= j < i && t[j].Posted? && t[j].account.Kid? ensures t[j].account == t[i].account {
        assert t[j] in t[..i];
      }
    }
    forall i | 0 <= i < |t| && t[i].Posted?
      ensures t[i].account.Jwk? <==> t[i].payload.LookUp? || t[i].payload.Register?
      ensures t[i].account.Jwk? ==> t[i].url == d.newAccount
    {
      assert Allowed(t[..i], t[i], d, thumbprint);
    }
  }

  lemma OfferMeans(e: Event, url: string, written: Event, thumbprint: string) returns (k: nat, token: string)
    requires Offers(e, url, written, thumbprint)
    ensures Offered(Doc(e), k, token, url) && written == Wrote(token, Proof(token, thumbprint), true)
  {
    var challenges := Doc(e).challenges.value;
    var c := FirstHttp01(challenges).value;
    token := c.token.value;
    k :| FirstAt(challenges, k) && challenges[k] == c;
  }

  lemma OrderedAnswers(t: seq<Event>, d: Directory, thumbprint: string)
    requires Ordered(t, d, thumbprint)
    ensures Answers(t, thumbprint)
  {
    hide Entitled, Granted, Settled, Offers, Offered;
    forall i | 0 <= i < |t| && t[i].Posted? && t[i].payload.Ready?
      ensures exists h, j, k, token :: Prepares(t[..i], h, j, k, token, t[i].url, thumbprint)
    {
      assert Allowed(t[..i], t[i], d, thumbprint);
      var h, j :| 0 <= h < j < |t[..i]| && Offers(t[..i][h], t[i].url, t[..i][j], thumbprint);
      var k, token := OfferMeans(t[..i][h], t[i].url, t[..i][j], thumbprint);
      OffersTold(t[..i][h], t[i].url, t[..i][j], thumbprint);
      assert Prepares(t[..i], h, j, k, token, t[i].url, thumbprint);
    }
  }

  lemma OffersTold(e: Event, url: string, written: Event, thumbprint: string)
    requires Offers(e, url, written, thumbprint)
    ensures Told(e)
  {
  }

  // -- A finished issuance ------------------------------------------------------------------------------------

  predicate HoldsPem(text: string) {
    exists i | 0 <= i <= |text| - 17 :: PemAt(text, i)
  }

  predicate PemAt(text: string, i: nat)
    requires i + 17 <= |text|
  {
    text[i..i + 17] == "BEGIN CERTIFICATE"
  }

  lemma PemMeans(text: string)
    ensures HoldsPem(text) <==> Contains(text, "BEGIN CERTIFICATE")
  {
    forall i | 0 <= i <= |text| - 17 ensures PemAt(text, i) == StandsAt(text, "BEGIN CERTIFICATE", i) {
    }
  }

  /**
   * The order is placed, all it lists is read valid, its request is taken where it says, the order is then read valid
   * where it lives, and the last answer is the chain, from where that names it.
   */
  ghost predicate DeliveredBy(
    t: seq<Event>, newOrder: string, domains: seq<string>, pem: string,
    o: nat, c: nat, v: nat, location: string, order: Document, ready: Document)
  {
    && o < c < v < |t| - 1 && Opens(t[o], newOrder, domains, location, order) && EachValid(t[..c], order)
    && t[c].Posted? && GoesTo(order, t[c].url) && Taken(t[c], t[c].url, Csr(domains))
    && ShownValid(t[v], location, ready) && ready.certificate.Some?
    && Taken(t[|t| - 1], ready.certificate.value, Read)
    && t[|t| - 1].reply.value.body.text == Some(pem) && HoldsPem(pem)
  }

  ghost predicate Delivered(t: seq<Event>, newOrder: string, domains: seq<string>, pem: string) {
    exists o, c, v, location, order, ready :: DeliveredBy(t, newOrder, domains, pem, o, c, v, location, order, ready)
  }

  lemma FinishesMeans(sent: Event, valid: Event, last: Event, order: Order, domains: seq<string>, pem: string)
    requires Finishes(sent, valid, last, order, domains, pem)
    ensures Told(valid) && Taken(sent, order.finalize, Csr(domains)) && ShownValid(valid, order.url, Doc(valid))
    ensures Doc(valid).certificate.Some? && Taken(last, Doc(valid).certificate.value, Read)
    ensures last.reply.value.body.text == Some(pem) && HoldsPem(pem)
  {
    hide Contains, HoldsPem;
    PemMeans(pem);
  }

  lemma CompletedAt(
    t: seq<Event>, d: Directory, domains: seq<string>, pem: string, o: nat, c: nat, v: nat, order: Order)
    requires o < c < v < |t| - 1 && Places(t[o], d, domains, order) && AllSeen(t[..c], order.authorizations)
    requires Finishes(t[c], t[v], t[|t| - 1], order, domains, pem)
    ensures Delivered(t, d.newOrder, domains, pem)
  {
    PlacesOpens(t[o], d, domains, order);
    AllSeenEachValid(t[..c], [], order.url, Doc(t[o]));
    FinishesMeans(t[c], t[v], t[|t| - 1], order, domains, pem);
    hide HoldsPem, EachValid, GoesTo, ShownValid, Opens, Doc;
    assert t[..c] + [] == t[..c];
    assert DeliveredBy(t, d.newOrder, domains, pem, o, c, v, order.url, Doc(t[o]), Doc(t[v]));
  }

  lemma CompletedDelivers(t: seq<Event>, d: Directory, domains: seq<string>, pem: string)
    requires Completed(t, d, domains, pem)
    ensures Delivered(t, d.newOrder, domains, pem)
  {
    hide Contains, HoldsPem, AllSeen, Places, Finishes, Delivered;
    var o, c, v, order :|
      && 0 <= o < c < v < |t| - 1 && Places(t[o], d, domains, order) && AllSeen(t[..c], order.authorizations)
      && Finishes(t[c], t[v], t[|t| - 1], order, domains, pem);
    CompletedAt(t, d, domains, pem, o, c, v, order);
  }

  // -- A whole issuance ---------------------------------------------------------------------------------------

  /** The directory an answer to the first fetch describes. */
  predicate Finds(e: Event, d: Directory) {
    && e.Fetched? && e.reply.Some? && 200 <= e.reply.value.status <= 299
    && e.reply.value.body.directory == Some(d)
  }

  /**
   * The directory is fetched first; without one nothing else happens. With one, every request says what was asked
   * for, under the right account, no challenge is answered before its proof is written, no certificate is requested
   * before the order is ready, and a chain is what the order led to.
   */
  ghost predicate Proceeds(
    t: seq<Event>, url: string, email: string, agreed: bool, domains: seq<string>, thumbprint: string,
    r: Result<string, Failure>)
  {
    && t != [] && t[0].Fetched? && t[0].url == url
    && ((forall d :: !Finds(t[0], d)) ==> |t| == 1 && r.Err?)
    && forall d | Finds(t[0], d) ::
      && Conducted(t, d.newOrder) && Worded(t, email, agreed, domains)
      && Accounts(t, d.newAccount) && Answers(t, thumbprint)
      && (r.Ok? ==> Delivered(t, d.newOrder, domains, r.value))
  }

  lemma NoDirectoryProceeds(
    first: Event, url: string, email: string, agreed: bool, domains: seq<string>, thumbprint: string, f: Failure)
    requires first.Fetched? && first.url == url && DirectoryOf(first).None?
    ensures Proceeds([first], url, email, agreed, domains, thumbprint, Err(f))
  {
    hide Conducted, Worded, Accounts, Answers, Delivered;
    forall d ensures !Finds([first][0], d) {
    }
  }

  lemma OrderedProceeds(
    t: seq<Event>, url: string, d: Directory, email: string, agreed: bool, domains: seq<string>, thumbprint: string,
    r: Result<string, Failure>)
    requires t != [] && t[0].Fetched? && t[0].url == url && DirectoryOf(t[0]) == Some(d)
    requires Ordered(t, d, thumbprint) && Conducted(t, d.newOrder) && Worded(t, email, agreed, domains)
    requires r.Ok? ==> Completed(t, d, domains, r.value)
    ensures Proceeds(t, url, email, agreed, domains, thumbprint, r)
  {
    hide Conducted, Worded, Accounts, Answers, Delivered, Ordered, Completed;
    OrderedAccounts(t, d, thumbprint);
    OrderedAnswers(t, d, thumbprint);
    if r.Ok? { CompletedDelivers(t, d, domains, r.value); }
    assert Finds(t[0], d);
  }
}
