/** What the world answers to a client, as one script, and which scripts let it come by a certificate. */
module AcmeScript {
  import opened Wrappers
  import opened AcmeTrace
  import opened AcmeConduct

  const BAD_NONCE_RETRIES := 3

  /** What the next step outside the client comes to; a response matters only to a request. */
  datatype Answer = Fails | Works(response: Response)

  /** The answers still to come, and whether a nonce is held. */
  datatype Outlook = Outlook(script: seq<Answer>, held: bool)

  /** What an exchange brings, and what is still to come after it. */
  datatype Turn<+T> = Turn(value: T, ahead: Outlook)

  /** Answered 2xx. */
  predicate Fine(r: Response) {
    200 <= r.status <= 299
  }

  /** A 400 whose problem document has a type that ends like this. */
  predicate Complains(r: Response, ending: string) {
    && r.status == 400 && r.body.json.Some? && r.body.json.value.kind.Some?
    && var kind := r.body.json.value.kind.value;
    |kind| >= |ending| && kind[|kind| - |ending|..] == ending
  }

  predicate Willing(script: seq<Answer>) {
    script != [] && script[0].Works?
  }

  function Later(script: seq<Answer>): seq<Answer> {
    if script == [] then [] else script[1..]
  }

  /** The answers to come once a nonce is at hand: a held one, or that of the next answer. */
  function Nonced(o: Outlook): Option<seq<Answer>> {
    if o.held then Some(o.script)
    else if Willing(o.script) && o.script[0].response.nonce.Some? then Some(o.script[1..])
    else None
  }

  /** One signed request that is answered. */
  function Tried(o: Outlook): (t: Option<Turn<Response>>)
    ensures t.Some? ==> |t.value.ahead.script| < |o.script|
  {
    var s := Nonced(o);
    if s.None? || !Willing(s.value) || !Willing(s.value[1..]) then None
    else
      var response := s.value[1].response;
      Some(Turn(response, Outlook(s.value[2..], response.nonce.Some?)))
  }

  /** A signed request answered in the end, after no more badNonce answers than are put up with. */
  function Served(o: Outlook, retries: nat): (t: Option<Turn<Response>>)
    ensures t.Some? ==> |t.value.ahead.script| < |o.script|
    decreases retries
  {
    var t := Tried(o);
    if t.Some? && Complains(t.value.value, ":badNonce") && retries > 0 then Served(t.value.ahead, retries - 1) else t
  }

  function Accepted(o: Outlook): (t: Option<Turn<Response>>)
    ensures t.Some? ==> |t.value.ahead.script| < |o.script|
  {
    var t := Served(o, BAD_NONCE_RETRIES);
    if t.Some? && Fine(t.value.value) then t else None
  }

  function Shown(o: Outlook): (t: Option<Turn<Response>>)
    ensures t.Some? ==> |t.value.ahead.script| < |o.script| && t.value.value.body.json.Some?
  {
    var t := Accepted(o);
    if t.Some? && t.value.value.body.json.Some? then t else None
  }

  /** Read again and again, something turns out valid before it is invalid and before the deadline passes. */
  function Validated(o: Outlook): Option<Turn<Document>>
    decreases |o.script|
  {
    var t := Shown(o);
    if t.None? then None
    else
      var d := t.value.value.body.json.value;
      if d.status == Some("valid") then Some(Turn(d, t.value.ahead))
      else if d.status == Some("invalid") || t.value.value.late then None
      else Validated(t.value.ahead)
  }

  /** A new account is granted. */
  function Enrolled(o: Outlook): Option<Turn<string>> {
    var t := Accepted(o);
    if t.None? || t.value.value.location.None? then None
    else Some(Turn(t.value.value.location.value, t.value.ahead))
  }

  /** The account of the key is found, or there is none and a new one is granted. */
  function Known(o: Outlook): Option<Turn<string>> {
    var t := Served(o, BAD_NONCE_RETRIES);
    if t.None? then None
    else if Fine(t.value.value) && t.value.value.location.Some? then
      Some(Turn(t.value.value.location.value, t.value.ahead))
    else if Fine(t.value.value) || Complains(t.value.value, ":accountDoesNotExist") then Enrolled(t.value.ahead)
    else None
  }

  /** The order document, from an answer that says where the order lives. */
  function OrderPlaced(o: Outlook): Option<Turn<Document>> {
    var t := Shown(o);
    if t.None? || t.value.value.location.None? then None
    else Some(Turn(t.value.value.body.json.value, t.value.ahead))
  }

  /** The proof can be written, the answer to the challenge is accepted, and the authorization turns out valid. */
  function Proven(o: Outlook): Option<Outlook> {
    if !Willing(o.script) then None
    else
      var t := Accepted(o.(script := o.script[1..]));
      if t.None? then None
      else
        var v := Validated(t.value.ahead);
        if v.None? then None else Some(v.value.ahead)
  }

  /** The first http-01 challenge of a document, with its token and its URL. */
  ghost predicate Offers(d: Document) {
    exists k, token, url :: Offered(d, k, token, url)
  }

  /** An authorization is valid, or it offers a whole http-01 challenge that can be met. */
  ghost function Met(o: Outlook): Option<Outlook> {
    var t := Shown(o);
    if t.None? then None
    else
      var d := t.value.value.body.json.value;
      if d.status == Some("valid") then Some(t.value.ahead)
      else if Offers(d) then Proven(t.value.ahead)
      else None
  }

  /** The listed authorizations are met one after the other; entries that are no strings are passed over. */
  ghost function AllMet(o: Outlook, listed: seq<Option<string>>): Option<Outlook>
    decreases |listed|
  {
    if |listed| == 0 then Some(o)
    else if listed[0].None? then AllMet(o, listed[1..])
    else
      var m := Met(o);
      if m.None? then None else AllMet(m.value, listed[1..])
  }

  /** So many authorizations are met. */
  ghost function MetTimes(o: Outlook, n: nat): Option<Outlook>
    decreases n
  {
    if n == 0 then Some(o)
    else
      var m := Met(o);
      if m.None? then None else MetTimes(m.value, n - 1)
  }

  lemma {:induction false} MetOnceEach(o: Outlook, listed: seq<Option<string>>)
    ensures AllMet(o, listed) == MetTimes(o, |Strings(listed)|)
    decreases |listed|
  {
    hide Met;
    if |listed| > 0 {
      if listed[0].None? {
        MetOnceEach(o, listed[1..]);
      } else if Met(o).Some? {
        MetOnceEach(Met(o).value, listed[1..]);
      }
    }
  }

  /** The order turns out valid, with the URL of its certificate, after its request is accepted. */
  function Finalized(o: Outlook): Option<Turn<string>> {
    var t := Accepted(o);
    if t.None? then None
    else
      var v := Validated(t.value.ahead);
      if v.None? || v.value.value.certificate.None? then None
      else Some(Turn(v.value.value.certificate.value, v.value.ahead))
  }

  function Downloaded(o: Outlook): Option<string> {
    var t := Accepted(o);
    if t.None? then None
    else
      var text := t.value.value.body.text;
      if text.Some? && HoldsPem(text.value) then text else None
  }

  /** A certificate key can be made, and the order ends in a chain. */
  function Redeemed(o: Outlook): Option<string> {
    if !Willing(o.script) then None
    else
      var t := Finalized(o.(script := o.script[1..]));
      if t.None? then None else Downloaded(t.value.ahead)
  }

  /** The order is placed, every authorization is met, and the chain handed out. */
  ghost function Obtained(o: Outlook): Option<string> {
    var t := OrderPlaced(o);
    if t.None? then None
    else
      var listed := t.value.value.authorizations;
      var met := AllMet(t.value.ahead, if listed.Some? then listed.value else []);
      if met.None? then None else Redeemed(met.value)
  }

  /** The chain that a script lets a client come by, if it does. */
  ghost function Obliges(script: seq<Answer>): Option<string> {
    if !Willing(script) || !Fine(script[0].response) || script[0].response.body.directory.None? then None
    else
      var t := Known(Outlook(script[1..], script[0].response.nonce.Some?));
      if t.None? then None else Obtained(t.value.ahead)
  }

  // -- What the client looks for -----------------------------------------------------------------------

  lemma Complaints(r: Response)
    ensures Complains(r, ":badNonce") == BadNonce(r) && Complains(r, ":accountDoesNotExist") == NoSuchAccount(r)
    ensures Fine(r) == Success(r)
  {
  }

  lemma SamePlace(d: Document, j: nat, k: nat, token: string, url: string)
    requires d.challenges.Some? && FirstAt(d.challenges.value, k) && Offered(d, j, token, url)
    ensures j == k
  {
  }

  lemma FirstOffers(d: Document, k: nat)
    requires d.challenges.Some? && FirstAt(d.challenges.value, k)
    ensures Offers(d) <==> d.challenges.value[k].token.Some? && d.challenges.value[k].url.Some?
  {
    var c := d.challenges.value[k];
    if c.token.Some? && c.url.Some? {
      assert c == Challenge(Some("http-01"), Some(c.token.value), Some(c.url.value));
      assert Offered(d, k, c.token.value, c.url.value);
    }
    if Offers(d) {
      var j: nat, token, url :| Offered(d, j, token, url);
      SamePlace(d, j, k, token, url);
    }
  }

  lemma OffersMeans(d: Document)
    ensures Offers(d) <==> Http01(d).Some? && Http01(d).value.token.Some? && Http01(d).value.url.Some?
  {
    if d.challenges.Some? && FirstHttp01(d.challenges.value).Some? {
      var k: nat :| FirstAt(d.challenges.value, k) && d.challenges.value[k] == FirstHttp01(d.challenges.value).value;
      FirstOffers(d, k);
    } else {
      NoOffer(d);
    }
  }

  lemma NoOffer(d: Document)
    requires Http01(d).None?
    ensures !Offers(d)
  {
    forall k: nat, token, url ensures !Offered(d, k, token, url) {
      if d.challenges.Some? && k < |d.challenges.value| { assert d.challenges.value[k] in d.challenges.value; }
    }
  }
}
