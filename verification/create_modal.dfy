/**
 The "create wishlist" dialog: the filter applied to every keystroke of the
 custom-slug field, and the mapping of a failed creation to the text shown.
 */
module CreateModal {
  import opened Options
  import opened Text
  import Actions

  /** `value.replace(/[^a-zA-Z0-9-_]/g, "")`: keep only the slug alphabet. */
  function Sanitize(s: string): (r: string)
    ensures IsSlugString(r)
    ensures |r| <= |s|
    ensures forall c :: c in r <==> c in s && IsSlugChar(c)
  {
    if s == [] then []
    else if IsSlugChar(s[0]) then [s[0]] + Sanitize(s[1..])
    else Sanitize(s[1..])
  }

  /** Sanitising distributes over concatenation: the kept characters stay in order. */
  lemma {:induction false} SanitizeAppend(a: string, b: string)
    ensures Sanitize(a + b) == Sanitize(a) + Sanitize(b)
  {
    if a == [] {
      assert a + b == b;
    } else {
      assert (a + b)[1..] == a[1..] + b;
      SanitizeAppend(a[1..], b);
    }
  }

  /** Every allowed character is kept: a string over the slug alphabet passes unchanged. */
  lemma {:induction false} SanitizeKeepsSlugs(s: string)
    requires IsSlugString(s)
    ensures Sanitize(s) == s
  {
    if s != [] {
      SanitizeKeepsSlugs(s[1..]);
    }
  }

  /** Sanitising twice is sanitising once. */
  lemma SanitizeIdempotent(s: string)
    ensures Sanitize(Sanitize(s)) == Sanitize(s)
  {
    SanitizeKeepsSlugs(Sanitize(s));
  }

  /**
   A sanitised slug reaches `createWishlist` as typed: it has no whitespace,
   so it is used verbatim when non-empty and replaced by the generated slug
   only when empty.
   */
  lemma SanitizedSlugChoice(typed: string, generated: string)
    ensures var s := Sanitize(typed);
      Actions.ChooseSlug(Some(s), generated) == if s == [] then generated else s
  {
    SlugStringTrim(Sanitize(typed));
  }

  const TakenText: string := "Этот ID уже занят, попробуйте другой"
  const GenericText: string := "Ошибка при создании. Попробуйте снова."

  /** The text shown for a failed creation, from the error's message. */
  function ErrorText(message: string): (t: string)
    ensures t == TakenText || t == GenericText
  {
    if message == Actions.SlugTakenMessage || Contains(message, Actions.SlugTakenMessage)
    then TakenText
    else GenericText
  }

  /**
   The "taken" text appears exactly when the message mentions "Slug already
   taken" anywhere, so the equality test before `includes` adds nothing.
   */
  lemma ErrorTextTakenIff(message: string)
    ensures ErrorText(message) == TakenText <==>
      exists i :: OccursAt(message, Actions.SlugTakenMessage, i)
  {
    ContainsIffOccurs(message, Actions.SlugTakenMessage);
    if message == Actions.SlugTakenMessage {
      ContainsSelf(message);
    }
  }

  datatype ModalState = ModalState(customSlug: string, isLoading: bool, error: string)

  /** How `createWishlist` ended: with the redirect to the editor, or with a thrown message. */
  datatype SubmitOutcome = Redirected | Failed(message: string)

  /**
   `handleSubmit`: the error is cleared and loading starts; a failure shows
   its mapped text and ends loading, a redirect leaves the page.
   */
  function HandleSubmit(st: ModalState, outcome: SubmitOutcome): (r: ModalState)
    ensures r.customSlug == st.customSlug
    ensures outcome.Failed? ==> !r.isLoading && r.error == ErrorText(outcome.message)
    ensures outcome.Redirected? ==> r.isLoading && r.error == ""
  {
    match outcome
    case Redirected => st.(isLoading := true, error := "")
    case Failed(m) => st.(isLoading := false, error := ErrorText(m))
  }

  /** How a `createWishlist` outcome reaches the dialog: a redirect, or the thrown error's message. */
  function SubmitOutcomeOf(o: Actions.Outcome<Actions.Created>, databaseMessage: string): (r: SubmitOutcome)
    ensures o.Ok? <==> r.Redirected?
    ensures o.Fail? ==> r == Failed(Actions.Message(o.error, databaseMessage))
  {
    match o
    case Ok(_) => Redirected
    case Fail(e) => Failed(Actions.Message(e, databaseMessage))
  }

  /**
   The dialog tells the failures apart by their messages: the "taken" text
   shows exactly for `SlugTaken`, provided the database's own message does
   not mention "Slug already taken".
   */
  lemma {:induction false} TakenTextIffSlugTaken(e: Actions.ActionError, databaseMessage: string)
    requires !Contains(databaseMessage, Actions.SlugTakenMessage)
    ensures ErrorText(Actions.Message(e, databaseMessage)) == TakenText <==> e == Actions.SlugTaken
  {
    ContainsSelf(Actions.SlugTakenMessage);
    if e == Actions.WishlistNotFound {
      NotFoundIsNotTaken();
    }
  }

  /** "Wishlist not found" does not contain "Slug already taken": both are 18 characters long and differ. */
  lemma NotFoundIsNotTaken()
    ensures !Contains(Actions.NotFoundMessage, Actions.SlugTakenMessage)
  {
    var m, t := Actions.NotFoundMessage, Actions.SlugTakenMessage;
    assert m[..|t|][0] != t[0];
    ShorterNotContains(m[1..], t);
  }

  /** A creation that fails on a duplicate slug is reported with the "taken" text. */
  lemma DuplicateSlugShowsTaken(
    st: ModalState, store: Actions.Store, userId: string,
    generatedSlug: string, salt: string, newId: string, now: nat, databaseMessage: string)
    requires IsNanoId(generatedSlug, Actions.GeneratedSlugLength) && IsNanoId(salt, Actions.SaltLength)
    requires Actions.CreateWishlist(store, userId, Some(st.customSlug), generatedSlug, salt, newId, now).Fail?
    ensures var o := Actions.CreateWishlist(store, userId, Some(st.customSlug), generatedSlug, salt, newId, now);
      && o.error == Actions.SlugTaken
      && HandleSubmit(st, SubmitOutcomeOf(o, databaseMessage)).error == TakenText
  {
    ContainsSelf(Actions.SlugTakenMessage);
  }
}
