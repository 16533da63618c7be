/** The pricing page of src/pages/Pricing.tsx: what choosing a plan does,
    and the checkout request sent to the payment function. Prices are in
    cents; the page only ever compares them with zero. */
module Pricing {
  import opened Wrappers
  import opened Types

  datatype Tier = Tier(name: string, price: nat, period: string, cta: string)

  /** The plans offered, in display order. */
  const PricingTiers: seq<Tier> := [
    Tier("Free", 0, "forever", "Get Started"),
    Tier("Premium", 999, "month", "Subscribe Now"),
    Tier("Creator", 2999, "month", "Start Creating")
  ]

  datatype CheckoutItem = CheckoutItem(name: string, price: nat, quantity: nat)

  datatype CheckoutRequest = CheckoutRequest(items: seq<CheckoutItem>, currency: string, payment_method_types: seq<string>)

  /** The body of the `create_stripe_checkout` call for a plan: one item
      named after the plan at its price, paid once, in dollars, by card. */
  function CheckoutRequestFor(tier: Tier): (r: CheckoutRequest)
    ensures |r.items| == 1
    ensures r.items[0] == CheckoutItem(tier.name + " Subscription", tier.price, 1)
    ensures r.currency == "usd" && r.payment_method_types == ["card"]
  {
    CheckoutRequest([CheckoutItem(tier.name + " Subscription", tier.price, 1)], "usd", ["card"])
  }

  datatype SubscribeOutcome =
    | SentToLogin                           // a free plan without a user
    | FreeAccessNotice                      // a free plan with a user
    | SignInRequired                        // a paid plan without a user
    | CheckoutRequested(request: CheckoutRequest)

  /** What the payment function call comes back with. */
  datatype CheckoutResponse =
    | FunctionError                         // `error` is set
    | Answered(url: Option<string>)         // `data.data.url`, possibly absent
    | Thrown                                // the call throws

  const FreeAccessMessage := "You already have free access!"
  const SignInMessage := "Please sign in to subscribe"
  const CheckoutFailedMessage := "Failed to create checkout session"
  const ErrorMessage := "An error occurred. Please try again."

  class PricingPage {
    /** The plan whose checkout is being created, if any. */
    var loading: Option<string>
    /** Where the router navigated. */
    var redirectedTo: Option<string>
    /** Where the browser was sent (`window.location.href`). */
    var location: Option<string>
    /** The last notice shown. */
    var notice: Option<string>

    constructor ()
      ensures loading.None? && redirectedTo.None? && location.None? && notice.None?
    {
      loading, redirectedTo, location, notice := None, None, None, None;
    }

    /** `handleSubscribe` up to the awaited call. A free plan never creates
        a checkout: without a user the reader is sent to sign in, with one
        they are told they have access. A paid plan without a user is sent
        to sign in. Otherwise the plan is marked loading and its checkout
        request is made. */
    method StartSubscribe(tier: Tier, user: Option<Id>) returns (outcome: SubscribeOutcome)
      modifies this`loading, this`redirectedTo, this`notice
      ensures tier.price == 0 && user.None? ==>
        outcome == SentToLogin && redirectedTo == Some("/login") && notice == old(notice)
      ensures tier.price == 0 && user.Some? ==>
        outcome == FreeAccessNotice && redirectedTo == old(redirectedTo) && notice == Some(FreeAccessMessage)
      ensures tier.price != 0 && user.None? ==>
        outcome == SignInRequired && redirectedTo == Some("/login") && notice == Some(SignInMessage)
      ensures tier.price != 0 && user.Some? ==>
        outcome == CheckoutRequested(CheckoutRequestFor(tier)) && redirectedTo == old(redirectedTo)
        && notice == old(notice)
      ensures outcome.CheckoutRequested? <==> loading == Some(tier.name) && tier.price != 0 && user.Some?
      ensures !outcome.CheckoutRequested? ==> loading == old(loading)
    {
      if tier.price == 0 {
        if user.None? {
          redirectedTo := Some("/login");
          return SentToLogin;
        }
        notice := Some(FreeAccessMessage);
        return FreeAccessNotice;
      }
      if user.None? {
        notice := Some(SignInMessage);
        redirectedTo := Some("/login");
        return SignInRequired;
      }
      loading := Some(tier.name);
      outcome := CheckoutRequested(CheckoutRequestFor(tier));
    }

    /** The continuation: the browser goes to the checkout only when the
        answer carries a non-empty url; an error, a missing url or a thrown
        call shows a failure notice. `loading` is cleared on every path. */
    method CompleteCheckout(response: CheckoutResponse)
      modifies this`loading, this`location, this`notice
      ensures loading.None?
      ensures location != old(location) ==> response.Answered? && response.url.Some? && response.url.value != []
      ensures response.Answered? && response.url.Some? && response.url.value != [] ==>
        location == response.url && notice == old(notice)
      ensures response.FunctionError? || (response.Answered? && (response.url.None? || response.url.value == [])) ==>
        location == old(location) && notice == Some(CheckoutFailedMessage)
      ensures response.Thrown? ==> location == old(location) && notice == Some(ErrorMessage)
    {
      match response {
        case FunctionError =>
          notice := Some(CheckoutFailedMessage);
        case Answered(url) =>
          if url.Some? && url.value != [] {
            location := url;
          } else {
            notice := Some(CheckoutFailedMessage);
          }
        case Thrown =>
          notice := Some(ErrorMessage);
      }
      loading := None;
    }
  }
}
