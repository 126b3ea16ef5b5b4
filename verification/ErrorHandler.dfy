/** How the error handler classifies a failure, whichever layer reported it. */
module ErrorHandler {
  import opened Strings
  import opened Errors
  import opened Authorizer

  /** An error on its way to the handler: its marks, and the impersonation target it names if it is an
      ImpersonationAuthError. */
  datatype Failure = Failure(marks: Error, denied: Option<(string, string)>)

  function Plain(mark: Mark): Failure {
    Failure({mark}, None)
  }

  /** The error CheckAuthorizedForImpersonation returns for a refusal. */
  function FailureOf(refusal: Refusal): Failure {
    match refusal
    case TooManyValues(_, _) => Plain(TooManyImpersonationValues)
    case NoUser => Plain(NoImpersonationUser)
    case Denied(_, kind, target) => Failure({ImpersonationNotAllowed}, Some((kind, target)))
    case UnknownHeader(_) => Failure({}, None)
    case ReviewFailed(error) => Failure(error, None)
  }

  /** What becomes of a failed request. A refusal carries its reason, and the status it is answered with when
      there is still somebody to answer. */
  datatype Disposition =
    | Refusal(reason: string, status: Option<int>)
    | UpstreamFailure(termination: string)

  /** errors.As or errors.Is finds a transport error in the chain; context.DeadlineExceeded is a net.Error. */
  predicate IsUpstreamTransportError(e: Error) {
    e * {NetError, NetTimeout, DeadlineExceeded, EndOfStream, ConnectionReset, OtherTransport} != {}
  }

  function UpstreamTermination(e: Error): string {
    if NetTimeout in e || DeadlineExceeded in e then "upstream_timeout"
    else if EndOfStream in e || ConnectionReset in e then "upstream_reset"
    else "proxy_error"
  }

  /** The handler's switch, in its order. */
  function Dispose(e: Error): Disposition {
    if Unauthorized in e then Refusal("unauthorized", Some(401))
    else if ReservedIdentity in e then Refusal("reserved_identity", Some(403))
    else if NoName in e then Refusal("no_username_claim", Some(403))
    else if NoImpersonationConfig in e then Refusal("internal_error", Some(500))
    else if NoImpersonationUser in e then Refusal("internal_error", Some(500))
    else if TooManyImpersonationValues in e then Refusal("too_many_impersonation_values", Some(431))
    else if ImpersonationNotAllowed in e then Refusal("impersonation_denied", Some(403))
    else if ContextCanceled in e then Refusal("client_canceled", None)
    else if CreateReview in e then Refusal("internal_error", Some(500))
    else if IsUpstreamTransportError(e) then UpstreamFailure(UpstreamTermination(e))
    else Refusal("internal_error", Some(500))
  }

  /** The errors the proxy itself raises, and the client's own cancellation. */
  const OWN: set<Mark> := {
    Unauthorized, ReservedIdentity, NoName, NoImpersonationConfig, NoImpersonationUser,
    TooManyImpersonationValues, ImpersonationNotAllowed, ContextCanceled, CreateReview}

  /** A failure is the upstream's exactly when it is a transport error with none of the proxy's own sentinels
      on it. In particular a review that could not be submitted is not, whatever it wraps. */
  lemma UpstreamExactlyWhenForeign(e: Error)
    ensures Dispose(e).UpstreamFailure? <==> IsUpstreamTransportError(e) && e !! OWN
    ensures CreateReview in e ==> Dispose(e).Refusal?
  {
    if e !! OWN {
      assert forall m :: m in OWN ==> m !in e;
    }
  }

  /** The authorizer's outcomes stay apart: over the cap 431, denied 403, no answer or a malformed request
      500, and none is taken for an upstream failure, as long as review failures carry their sentinel. */
  lemma RefusalsAreClassified(refusal: Authorizer.Refusal)
    requires refusal.ReviewFailed? ==> CreateReview in refusal.error
    requires refusal.ReviewFailed? ==> refusal.error * OWN <= {CreateReview, ContextCanceled}
    ensures var d := Dispose(FailureOf(refusal).marks);
      && d.Refusal?
      && (d.status == Some(431) <==> refusal.TooManyValues?)
      && (d.status == Some(403) <==> refusal.Denied?)
      && (d.status == None <==> refusal.ReviewFailed? && ContextCanceled in refusal.error)
  {
    if refusal.ReviewFailed? {
      forall m | m in OWN && m in refusal.error
        ensures m in {CreateReview, ContextCanceled}
      {
        assert m in refusal.error * OWN;
      }
    }
  }

  function TrimFront(s: string): string {
    if s != "" && s[0] == '\'' then TrimFront(s[1..]) else s
  }

  function TrimBack(s: string): string {
    if s != "" && s[|s| - 1] == '\'' then TrimBack(s[..|s| - 1]) else s
  }

  /** strings.Trim with a single quote as its cutset. */
  function TrimQuotes(s: string): string {
    TrimBack(TrimFront(s))
  }

  function TargetKind(kind: string): string {
    if kind == "extra info" then "extra" else kind
  }

  /** A refused user, group or uid is recorded by its own name: trimming undoes the quoting exactly for names
      that do not themselves begin or end with a quote. */
  lemma TrimUndoesQuote(name: string)
    ensures TrimQuotes(Quote(name)) == name
      <==> name == "" || (name[0] != '\'' && name[|name| - 1] != '\'')
  {
    assert Quote(name)[1..] == name + "'";
    if name == "" {
      assert TrimFront("'") == TrimFront(""[..]);
    } else if name[0] != '\'' {
      assert TrimFront(name + "'") == name + "'";
      assert (name + "'")[..|name|] == name;
      TrimBackIsShort(name);
    } else {
      TrimFrontDrops(name + "'");
      TrimBackShrinks(TrimFront(name + "'"));
    }
  }

  lemma {:induction false} TrimBackShrinks(s: string)
    ensures TrimBack(s) <= s
    ensures TrimBack(s) != "" ==> s != "" && TrimBack(s)[0] == s[0]
  {
    if s != "" && s[|s| - 1] == '\'' {
      TrimBackShrinks(s[..|s| - 1]);
    }
  }

  lemma TrimBackIsShort(name: string)
    requires name != ""
    ensures TrimBack(name) == name <==> name[|name| - 1] != '\''
  {
    if name[|name| - 1] == '\'' {
      TrimBackShrinks(name[..|name| - 1]);
    }
  }

  lemma {:induction false} TrimFrontDrops(s: string)
    ensures TrimFront(s) == "" || TrimFront(s)[0] != '\''
  {
    if s != "" && s[0] == '\'' {
      TrimFrontDrops(s[1..]);
    }
  }

  /** A refused extra is recorded by its name and value in the quoted form of the message without its outer quotes,
      exactly when the name does not begin with a quote, the value does not end with one, and neither is empty. */
  lemma TrimKeepsExtraForm(name: string, value: string)
    ensures TrimQuotes(Quote(name) + "=" + Quote(value)) == name + "'='" + value
      <==> name != "" && name[0] != '\'' && value != "" && value[|value| - 1] != '\''
  {
    var inner := name + "'='" + value;
    assert Quote(name) + "=" + Quote(value) == Quote(inner);
    TrimUndoesQuote(inner);
    assert inner[0] == if name == "" then '\'' else name[0];
    assert inner[|inner| - 1] == if value == "" then '\'' else value[|value| - 1];
  }
}
