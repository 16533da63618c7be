/** The page the payment provider returns to, src/pages/PaymentSuccess.tsx:
    a small state machine over `verifying`, `verified` and `error`, driven
    by the session id in the address and the verification answer. */
module PaymentSuccess {
  import opened Wrappers

  /** What the `verify_stripe_payment` call comes back with. */
  datatype VerifyResponse =
    | FunctionError                 // `error` is set
    | Answered(verified: bool)      // `data.data.verified`, false when absent
    | Thrown                        // the call throws

  /** What the page renders. */
  datatype View = Verifying | Failed(message: string) | Succeeded

  const NoSessionMessage := "No session ID found"
  const VerifyFailedMessage := "Failed to verify payment"
  const NotVerifiedMessage := "Payment not verified"
  const ThrownMessage := "An error occurred during verification"
  const FallbackMessage := "We could not verify your payment"

  class PaymentPage {
    var verifying: bool
    var verified: bool
    var error: Option<string>

    constructor ()
      ensures verifying && !verified && error.None?
    {
      verifying, verified, error := true, false, None;
    }

    /** The page shown: the spinner while verifying, the success card only
        with no error and a verified payment, the failure card otherwise. */
    function Shown(): (v: View)
      reads this
      ensures v == Verifying <==> verifying
      ensures v == Succeeded <==> !verifying && error.None? && verified
      ensures v.Failed? ==> v.message == error.GetOr(FallbackMessage)
    {
      if verifying then Verifying
      else if error.Some? || !verified then Failed(error.GetOr(FallbackMessage))
      else Succeeded
    }

    /** The mount effect: without a (non-empty) `session_id` the page stops
        verifying with an error and no call is made; with one the
        verification is requested. */
    method Mount(sessionId: Option<string>) returns (requested: bool)
      modifies this`verifying, this`error
      ensures requested <==> sessionId.Some? && sessionId.value != []
      ensures !requested ==> !verifying && error == Some(NoSessionMessage)
      ensures requested ==> verifying == old(verifying) && error == old(error)
    {
      if sessionId.None? || sessionId.value == [] {
        error := Some(NoSessionMessage);
        verifying := false;
        return false;
      }
      requested := true;
    }

    /** `verifyPayment` after the call: only an answer saying `verified`
        marks the payment verified; each failure sets its own error; and
        `verifying` ends false on every path. */
    method CompleteVerification(response: VerifyResponse)
      modifies this`verifying, this`verified, this`error
      ensures !verifying
      ensures verified <==> old(verified) || response == Answered(true)
      ensures response == FunctionError ==> error == Some(VerifyFailedMessage)
      ensures response == Answered(false) ==> error == Some(NotVerifiedMessage)
      ensures response == Thrown ==> error == Some(ThrownMessage)
      ensures response == Answered(true) ==> error == old(error)
    {
      match response {
        case FunctionError =>
          error := Some(VerifyFailedMessage);
        case Answered(ok) =>
          if ok {
            verified := true;
          } else {
            error := Some(NotVerifiedMessage);
          }
        case Thrown =>
          error := Some(ThrownMessage);
      }
      verifying := false;
    }
  }

  /** From a fresh page, the success card shows exactly when a session id
      is present and the answer says verified. */
  method Visit(sessionId: Option<string>, response: VerifyResponse) returns (v: View)
    ensures v == Succeeded <==> sessionId.Some? && sessionId.value != [] && response == Answered(true)
    ensures v != Verifying
  {
    var page := new PaymentPage();
    var requested := page.Mount(sessionId);
    if requested {
      page.CompleteVerification(response);
    }
    v := page.Shown();
  }
}
