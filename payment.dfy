/**
 * `createPayment`: refuses a non-positive amount, creates a PayPal payment with the
 * environment's default credentials, records a `payment` row and answers with the
 * approval link. The token exchange and the creation call are inputs.
 */
module Payment {
  import opened Wrappers
  import opened Common
  import opened Credentials
  import opened History

  /** The body of `POST /paypal/payment`; `amount` is a JavaScript number. */
  datatype PaymentRequest = PaymentRequest(
    amount: real, currency: string, environment: Environment, description: Option<string>)

  const DefaultDescription := "Payment via PayPal Integration"

  /** The payment PayPal is asked to create (the amount is sent as `toFixed(2)` of `total`). */
  datatype PaymentBody = PaymentBody(
    intent: string, paymentMethod: string, total: real, currency: string, description: string,
    returnUrl: string, cancelUrl: string)

  /** The request body: a PayPal-funded sale of the requested amount, described by the caller or by default. */
  function BodyOf(req: PaymentRequest): (b: PaymentBody)
    ensures b.total == req.amount && b.currency == req.currency
    ensures b.description != ""
    ensures Truthy(req.description) ==> b.description == req.description.value
    ensures !Truthy(req.description) ==> b.description == DefaultDescription
    ensures b.intent == "sale" && b.paymentMethod == "paypal"
  {
    PaymentBody("sale", "paypal", req.amount, req.currency, OrElse(req.description, DefaultDescription),
                "https://example.com/success", "https://example.com/cancel")
  }

  /** One entry of `links` in PayPal's answer. */
  datatype Link = Link(rel: Option<string>, href: Option<string>)

  datatype PaymentResult = PaymentResult(id: string, state: string, links: Option<seq<Link>>)

  predicate IsApproval(l: Link) {
    l.rel == Some("approval_url")
  }

  /** The position of the first approval link, if any. */
  function FirstApproval(links: seq<Link>): (i: Option<nat>)
    ensures i.Some? ==> i.value < |links| && IsApproval(links[i.value])
    ensures i.Some? ==> forall k :: 0 <= k < i.value ==> !IsApproval(links[k])
    ensures i.None? ==> forall k :: 0 <= k < |links| ==> !IsApproval(links[k])
  {
    if |links| == 0 then None
    else if IsApproval(links[0]) then Some(0)
    else match FirstApproval(links[1..])
      case None => None
      case Some(i) => Some(i + 1)
  }

  /** `links?.find(link => link.rel === "approval_url")?.href`. */
  function ApprovalUrl(links: Option<seq<Link>>): (url: Option<string>)
    ensures links.None? ==> url.None?
    ensures url.Some? ==> exists k :: 0 <= k < |links.value| && IsApproval(links.value[k]) && links.value[k].href == url
  {
    if links.None? then None
    else match FirstApproval(links.value)
      case None => None
      case Some(i) => links.value[i].href
  }

  /** The approval link named by PayPal is the href of the first approval link; later ones are ignored. */
  lemma {:induction false} ApprovalUrlIsFirst(before: seq<Link>, link: Link, after: seq<Link>)
    requires forall k :: 0 <= k < |before| ==> !IsApproval(before[k])
    requires IsApproval(link)
    ensures ApprovalUrl(Some(before + [link] + after)) == link.href
  {
    var links := before + [link] + after;
    var i := FirstApproval(links);
    assert links[|before|] == link;
    assert i.Some?;
    assert i.value == |before|;
  }

  datatype PaymentResponse = PaymentResponse(
    paymentId: string, status: string, approvalUrl: Option<string>, amount: real, currency: string)

  /**
   * What `createPayment` answers: a non-positive amount is refused before anything else, then the
   * default credentials, the token exchange and the creation call may each fail.
   */
  function PaymentOf(credentials: seq<CredentialRow>, req: PaymentRequest, keyring: Keyring,
                     authenticate: (PlainCredentials, Environment) -> Upstream<string>,
                     create: PaymentBody -> Upstream<PaymentResult>): (r: Result<PaymentResponse>)
  {
    if req.amount <= 0.0 then Err(InvalidArgument("Amount must be greater than 0"))
    else match GetDecrypted(credentials, req.environment, None, keyring)
      case Err(e) => Err(e)
      case Ok(creds) =>
        if authenticate(creds, req.environment).Failed? then Err(Internal("PayPal authentication failed"))
        else match create(BodyOf(req))
          case Failed => Err(Internal("PayPal payment creation failed"))
          case Fetched(p) => Ok(PaymentResponse(p.id, p.state, ApprovalUrl(p.links), req.amount, req.currency))
  }

  /**
   * The guard comes first, then each upstream step can fail with its own error; the payment is
   * created exactly when all of them succeed, and then echoes the request and PayPal's answer.
   */
  lemma PaymentContract(credentials: seq<CredentialRow>, req: PaymentRequest, keyring: Keyring,
                        authenticate: (PlainCredentials, Environment) -> Upstream<string>,
                        create: PaymentBody -> Upstream<PaymentResult>)
    ensures var r := PaymentOf(credentials, req, keyring, authenticate, create);
            var creds := GetDecrypted(credentials, req.environment, None, keyring);
            && (req.amount <= 0.0 ==> r == Err(InvalidArgument("Amount must be greater than 0")))
            && (req.amount > 0.0 && creds.Err? ==> r == Err(creds.error))
            && (req.amount > 0.0 && creds.Ok? && authenticate(creds.value, req.environment).Failed? ==>
                  r == Err(Internal("PayPal authentication failed")))
            && ((req.amount > 0.0 && creds.Ok? && authenticate(creds.value, req.environment).Fetched?
                 && create(BodyOf(req)).Failed?) ==> r == Err(Internal("PayPal payment creation failed")))
            && (r.Ok? <==> && req.amount > 0.0 && creds.Ok?
                           && authenticate(creds.value, req.environment).Fetched?
                           && create(BodyOf(req)).Fetched?)
            && (r.Ok? ==> && r.value.amount == req.amount && r.value.currency == req.currency
                          && r.value.paymentId == create(BodyOf(req)).body.id
                          && r.value.status == create(BodyOf(req)).body.state
                          && r.value.approvalUrl == ApprovalUrl(create(BodyOf(req)).body.links))
  {
  }

  /** A positive payment is refused as not configured exactly when the environment has no credentials. */
  lemma PaymentRefusedWithoutCredentials(credentials: seq<CredentialRow>, req: PaymentRequest, keyring: Keyring,
                                         authenticate: (PlainCredentials, Environment) -> Upstream<string>,
                                         create: PaymentBody -> Upstream<PaymentResult>)
    requires req.amount > 0.0
    ensures PaymentOf(credentials, req, keyring, authenticate, create)
              == Err(NotFound("PayPal credentials not configured for this environment"))
            <==> forall k :: 0 <= k < |credentials| ==> credentials[k].environment != req.environment
  {
    var creds := GetDecrypted(credentials, req.environment, None, keyring);
    assert creds == Err(NotFound("PayPal credentials not configured for this environment"))
           <==> FindCredential(credentials, req.environment, None).None?;
  }

  /**
   * Payments never pick credentials by remark: the token exchange is given the decrypted pair of
   * the environment's earliest row.
   */
  lemma PaymentUsesEarliestCredentials(credentials: seq<CredentialRow>, req: PaymentRequest, keyring: Keyring,
                                       authenticate: (PlainCredentials, Environment) -> Upstream<string>,
                                       create: PaymentBody -> Upstream<PaymentResult>)
    requires req.amount > 0.0
    ensures (exists k :: 0 <= k < |credentials| && credentials[k].environment == req.environment) ==>
            var row := FindCredential(credentials, req.environment, None).value;
            var id, secret := Decrypt(row.clientIdEncrypted, keyring), Decrypt(row.clientSecretEncrypted, keyring);
            var r := PaymentOf(credentials, req, keyring, authenticate, create);
            && row in credentials && row.environment == req.environment
            && (forall k :: 0 <= k < |credentials| && credentials[k].environment == req.environment ==>
                  row.createdAt <= credentials[k].createdAt)
            && (r.Ok? ==> id.Ok? && secret.Ok?
                          && authenticate(PlainCredentials(id.value, secret.value), req.environment).Fetched?)
            && (id.Ok? && secret.Ok? ==>
                  (r == Err(Internal("PayPal authentication failed"))
                   <==> authenticate(PlainCredentials(id.value, secret.value), req.environment).Failed?))
  {
    var r := PaymentOf(credentials, req, keyring, authenticate, create);
    var found := FindCredential(credentials, req.environment, None);
    if found.Some? {
      var row := found.value;
      var id, secret := Decrypt(row.clientIdEncrypted, keyring), Decrypt(row.clientSecretEncrypted, keyring);
      if id.Err? {
        assert r == Err(id.error);
      } else if secret.Err? {
        assert r == Err(secret.error);
      }
    }
  }

  /** The `payment` row recorded after PayPal created the payment. */
  function PaymentRow(id: nat, userId: int, req: PaymentRequest, p: PaymentResult, now: int): (t: TxRow)
    ensures t.txType == "payment" && t.transactionId == p.id && t.status == p.state
    ensures t.amount == Some(req.amount) && t.currency == Some(req.currency) && t.environment == req.environment
  {
    TxRow(id, userId, p.id, "payment", Some(req.amount), Some(req.currency), p.state, req.environment, now)
  }

  /** A recorded payment keeps its (positive) amount when it is listed in the history. */
  lemma PaymentRowListed(id: nat, userId: int, req: PaymentRequest, p: PaymentResult, now: int)
    requires req.amount > 0.0
    ensures ToTransaction(PaymentRow(id, userId, req, p, now)).amount == Some(req.amount)
  {
  }

  /** `createPayment`: the `payment` row is written only once PayPal has created the payment. */
  method CreatePayment(log: TransactionLog, credentials: seq<CredentialRow>, userId: int, req: PaymentRequest,
                       keyring: Keyring, authenticate: (PlainCredentials, Environment) -> Upstream<string>,
                       create: PaymentBody -> Upstream<PaymentResult>, now: int)
    returns (r: Result<PaymentResponse>)
    requires log.Valid()
    modifies log
    ensures log.Valid()
    ensures r == PaymentOf(credentials, req, keyring, authenticate, create)
    ensures r.Ok? ==> log.rows == old(log.rows) + [PaymentRow(old(log.nextId), userId, req, create(BodyOf(req)).body, now)]
                      && log.nextId == old(log.nextId) + 1
    ensures r.Err? ==> log.rows == old(log.rows) && log.nextId == old(log.nextId)
  {
    if req.amount <= 0.0 {
      return Err(InvalidArgument("Amount must be greater than 0"));
    }
    var creds := GetDecrypted(credentials, req.environment, None, keyring);
    if creds.Err? {
      return Err(creds.error);
    }
    if authenticate(creds.value, req.environment).Failed? {
      return Err(Internal("PayPal authentication failed"));
    }
    var created := create(BodyOf(req));
    if created.Failed? {
      return Err(Internal("PayPal payment creation failed"));
    }
    var p := created.body;
    var approvalUrl := ApprovalUrl(p.links);
    log.Append(userId, p.id, "payment", Some(req.amount), Some(req.currency), p.state, req.environment, now);
    r := Ok(PaymentResponse(p.id, p.state, approvalUrl, req.amount, req.currency));
  }
}
