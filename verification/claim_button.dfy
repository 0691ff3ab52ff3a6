/**
 The claim button of one item on the public wishlist page: the visitor's
 anonymous identity, the list of claimant identities it last saw, and
 whether a request is in flight. The claim route itself is not part of this
 model; its answer is a parameter of `ToggleClaim`.
 */
module ClaimButton {
  import opened Options
  import opened Text

  datatype ClaimState = ClaimState(userId: string, claims: seq<string>, loading: bool)

  /** The state the button mounts with: no identity yet, the claims the page rendered. */
  function Initial(initialClaims: seq<string>): (st: ClaimState)
    ensures st.claims == initialClaims && st.userId == [] && !st.loading
  {
    ClaimState("", initialClaims, false)
  }

  /** The visitor's identity is among the claimants. */
  predicate IsClaimedByMe(st: ClaimState) {
    st.userId in st.claims
  }

  /** Someone else holds the item. */
  predicate IsClaimed(st: ClaimState) {
    |st.claims| > 0 && !IsClaimedByMe(st)
  }

  /** The item can never be both mine and taken by someone else. */
  lemma MineAndTakenExclusive(st: ClaimState)
    ensures !(IsClaimedByMe(st) && IsClaimed(st))
    ensures IsClaimed(st) || IsClaimedByMe(st) || st.claims == []
  {
  }

  // ----- identity -----

  /**
   Identity initialisation: a stored (non-empty) anonymous id is reused and
   the storage left alone; otherwise the freshly generated id is stored and used.
   */
  function InitUserId(stored: Option<string>, generated: string): (r: (string, Option<string>))
    ensures Truthy(stored) ==> r == (stored.value, stored)
    ensures !Truthy(stored) ==> r == (generated, Some(generated))
  {
    if Truthy(stored) then (stored.value, stored) else (generated, Some(generated))
  }

  const AnonIdLength: nat := 12

  /**
   After initialisation the stored id and the identity agree, and a second
   initialisation (on the next page load) keeps the same identity whatever
   id it generates.
   */
  lemma {:induction false} InitUserIdStable(stored: Option<string>, generated: string, generatedAgain: string)
    requires IsNanoId(generated, AnonIdLength)
    ensures var (id, stored') := InitUserId(stored, generated);
      && stored' == Some(id)
      && id != []
      && InitUserId(stored', generatedAgain) == (id, stored')
  {
    assert generated != [] by {
      assert |generated| == AnonIdLength;
    }
  }

  // ----- the toggle -----

  datatype Action = Claim | Unclaim

  /** The request `toggleClaim` sends: nothing without an identity, else unclaim iff the claim is mine. */
  function ToggleRequest(st: ClaimState): (r: Option<Action>)
    ensures r.None? <==> st.userId == []
    ensures r.Some? ==> (r.value == Unclaim <==> IsClaimedByMe(st))
  {
    if st.userId == [] then None
    else if IsClaimedByMe(st) then Some(Unclaim) else Some(Claim)
  }

  /** The JSON body of a response, when it had one: an error text and/or the claimant list. */
  datatype ClaimBody = ClaimBody(error: Option<string>, claims: Option<seq<string>>)

  datatype ClaimReply =
    | Threw                                            // the request itself failed
    | Response(ok: bool, body: Option<ClaimBody>)      // `body` is None when it was not JSON

  /** The response counts as a success: status ok and no truthy `error` field. */
  predicate Succeeded(reply: ClaimReply) {
    reply.Response? && reply.ok && !(reply.body.Some? && Truthy(reply.body.value.error))
  }

  /**
   `toggleClaim`: without an identity nothing happens; otherwise a successful
   response replaces the claims by the server's list (or [] when it sent
   none), any failure leaves them as they were, and loading ends.
   */
  function ToggleClaim(st: ClaimState, reply: ClaimReply): (r: ClaimState)
    ensures st.userId == [] ==> r == st
    ensures st.userId != [] ==> !r.loading && r.userId == st.userId
    ensures st.userId != [] && !Succeeded(reply) ==> r.claims == st.claims
    ensures st.userId != [] && Succeeded(reply) ==>
      r.claims == (if reply.body.Some? then reply.body.value.claims.GetOr([]) else [])
  {
    if st.userId == [] then st
    else if !Succeeded(reply) then st.(loading := false)
    else
      var claims := if reply.body.Some? then reply.body.value.claims.GetOr([]) else [];
      st.(claims := claims, loading := false)
  }

  /** The claimant list a successful reply installs. */
  function ReplyClaims(reply: ClaimReply): seq<string> {
    if reply.Response? && reply.body.Some? then reply.body.value.claims.GetOr([]) else []
  }

  /**
   After a successful toggle the button's view follows the server's list:
   the claim is mine iff my identity is in it, taken iff it is non-empty
   without me, and free iff it is empty.
   */
  lemma ToggleOutcome(st: ClaimState, reply: ClaimReply)
    requires st.userId != [] && Succeeded(reply)
    ensures var r := ToggleClaim(st, reply);
      var cs := ReplyClaims(reply);
      && r.claims == cs
      && (IsClaimedByMe(r) <==> st.userId in cs)
      && (IsClaimed(r) <==> cs != [] && st.userId !in cs)
      && (LabelOf(r) == Free <==> cs == [])
  {
  }

  // ----- rendering -----

  /** The button is disabled while loading or when someone else holds the item. */
  predicate Disabled(st: ClaimState) {
    st.loading || IsClaimed(st)
  }

  datatype Label = Mine | Taken | Free

  /** The label: mine, else taken, else free. */
  function LabelOf(st: ClaimState): (l: Label)
    ensures l == Mine <==> IsClaimedByMe(st)
    ensures l == Taken <==> IsClaimed(st)
    ensures l == Free <==> st.claims == []
  {
    if IsClaimedByMe(st) then Mine else if IsClaimed(st) then Taken else Free
  }

  function LabelText(l: Label): string {
    match l
    case Mine => "Бронь ваша"
    case Taken => "Уже забрали"
    case Free => "Забрать"
  }

  /** Outside loading, the button is disabled exactly when it reads "taken". */
  lemma DisabledIffTaken(st: ClaimState)
    ensures Disabled(st) <==> st.loading || LabelOf(st) == Taken
    ensures !st.loading ==> (Disabled(st) <==> LabelText(LabelOf(st)) == "Уже забрали")
  {
  }
}
