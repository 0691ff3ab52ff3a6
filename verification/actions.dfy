/**
 The server actions of the wishlist service over an abstract store: the
 wishlist table keyed by slug and the item table keyed by item id. Values
 the database or nanoid would generate (ids, the salt, the fallback slug,
 timestamps) are parameters of the operations.
 */
module Actions {
  import opened Options
  import opened Text

  datatype Wishlist = Wishlist(
    id: string,
    slug: string,
    title: string,
    ownerId: string,
    salt: string,
    pinHash: Option<string>,
    createdAt: nat)

  datatype Item = Item(
    id: string,
    wishlistId: string,
    name: string,
    url: Option<string>,
    price: Option<string>,
    image: Option<string>,
    createdAt: nat)

  datatype Store = Store(wishlists: map<string, Wishlist>, items: map<string, Item>)

  /** The errors the actions raise; `RecordNotFound` is the database's own error for a missing row. */
  datatype ActionError = SlugTaken | WishlistNotFound | RecordNotFound

  datatype Outcome<T> = Ok(value: T) | Fail(error: ActionError)

  const DefaultTitle: string := "Мой список желаний"
  const SlugTakenMessage: string := "Slug already taken"
  const NotFoundMessage: string := "Wishlist not found"
  const GeneratedSlugLength: nat := 10
  const SaltLength: nat := 16

  /**
   The message of the `Error` each failure is thrown as. The text of the
   database's own error for a missing row is not visible here and is a parameter.
   */
  function Message(e: ActionError, databaseMessage: string): (m: string)
    ensures e == SlugTaken ==> m == SlugTakenMessage
    ensures e == WishlistNotFound ==> m == NotFoundMessage
    ensures e == RecordNotFound ==> m == databaseMessage
  {
    match e
    case SlugTaken => SlugTakenMessage
    case WishlistNotFound => NotFoundMessage
    case RecordNotFound => databaseMessage
  }

  /**
   What the database guarantees: every wishlist sits under its own slug (the
   unique key), every item under its own id, and every salt is non-empty
   because it was drawn by nanoid(16) at creation.
   */
  ghost predicate Valid(st: Store) {
    && (forall s :: s in st.wishlists ==> st.wishlists[s].slug == s && st.wishlists[s].salt != [])
    && (forall i :: i in st.items ==> st.items[i].id == i)
  }

  /** The slug `createWishlist` uses: the custom slug verbatim unless it is absent or blank. */
  function ChooseSlug(customSlug: Option<string>, generated: string): (slug: string)
    ensures customSlug.Some? && Trim(customSlug.value) != [] ==> slug == customSlug.value
    ensures (customSlug.None? || Trim(customSlug.value) == []) ==> slug == generated
  {
    if customSlug.Some? && customSlug.value != [] && |Trim(customSlug.value)| > 0
    then customSlug.value
    else generated
  }

  datatype Created = Created(store: Store, redirectTo: string)

  /**
   `createWishlist`: inserts a wishlist with the default title, the caller as
   owner, a fresh salt and no PIN, then redirects to its editor; a slug
   already in use is the unique-constraint violation reported as "Slug already taken".
   */
  function CreateWishlist(
    st: Store, userId: string, customSlug: Option<string>,
    generatedSlug: string, salt: string, newId: string, now: nat): (r: Outcome<Created>)
    requires IsNanoId(generatedSlug, GeneratedSlugLength) && IsNanoId(salt, SaltLength)
    ensures var slug := ChooseSlug(customSlug, generatedSlug);
      && (r.Fail? <==> slug in st.wishlists)
      && (r.Fail? ==> r.error == SlugTaken)
      && (r.Ok? ==>
            && r.value.store.items == st.items
            && r.value.store.wishlists.Keys == st.wishlists.Keys + {slug}
            && (forall s :: s in st.wishlists ==> r.value.store.wishlists[s] == st.wishlists[s])
            && r.value.store.wishlists[slug]
               == Wishlist(newId, slug, DefaultTitle, userId, salt, None, now)
            && r.value.redirectTo == "/" + slug + "/edit")
  {
    var slug := ChooseSlug(customSlug, generatedSlug);
    if slug in st.wishlists then Fail(SlugTaken)
    else
      var w := Wishlist(newId, slug, DefaultTitle, userId, salt, None, now);
      Ok(Created(st.(wishlists := st.wishlists[slug := w]), "/" + slug + "/edit"))
  }

  /** `checkWishlistExists`. */
  function CheckWishlistExists(st: Store, slug: string): bool {
    slug in st.wishlists
  }

  /** The string reversal `pin.split('').reverse().join('')`. */
  function Reverse<T>(s: seq<T>): (r: seq<T>)
    ensures |r| == |s|
    ensures forall i :: 0 <= i < |s| ==> r[i] == s[|s| - 1 - i]
  {
    if s == [] then [] else Reverse(s[1..]) + [s[0]]
  }

  lemma ReverseInvolutive<T>(s: seq<T>)
    ensures Reverse(Reverse(s)) == s
  {
  }

  lemma ReverseInjective<T>(p: seq<T>, q: seq<T>)
    requires Reverse(p) == Reverse(q)
    ensures p == q
  {
    ReverseInvolutive(p);
    ReverseInvolutive(q);
  }

  /** The stored PIN verifier: the salt followed by the reversed PIN. */
  function Verifier(salt: string, pin: string): (h: string)
    ensures |h| == |salt| + |pin|
    ensures h[..|salt|] == salt
  {
    salt + Reverse(pin)
  }

  /** Under one salt, distinct PINs have distinct verifiers. */
  lemma {:induction false} VerifierInjective(salt: string, p: string, q: string)
    requires Verifier(salt, p) == Verifier(salt, q)
    ensures p == q
  {
    assert Reverse(p) == Verifier(salt, p)[|salt|..];
    assert Reverse(q) == Verifier(salt, q)[|salt|..];
    ReverseInjective(p, q);
  }

  /**
   `setWishlistPin`: stores the verifier of `pin` under the wishlist's own
   salt; an unknown slug is "Wishlist not found" and changes nothing.
   */
  function SetWishlistPin(st: Store, slug: string, pin: string): (r: Outcome<Store>)
    ensures r.Fail? <==> slug !in st.wishlists
    ensures r.Fail? ==> r.error == WishlistNotFound
    ensures r.Ok? ==>
      && r.value.items == st.items
      && r.value.wishlists.Keys == st.wishlists.Keys
      && (forall s :: s in st.wishlists && s != slug ==> r.value.wishlists[s] == st.wishlists[s])
      && r.value.wishlists[slug]
         == st.wishlists[slug].(pinHash := Some(Verifier(st.wishlists[slug].salt, pin)))
  {
    if slug !in st.wishlists then Fail(WishlistNotFound)
    else
      var w := st.wishlists[slug];
      Ok(st.(wishlists := st.wishlists[slug := w.(pinHash := Some(Verifier(w.salt, pin)))]))
  }

  /** What `verifyWishlistPin` returns: a boolean, or the marker "NOT_SET". */
  datatype PinCheck = Checked(ok: bool) | NotSet

  /**
   `verifyWishlistPin`: `false` for an unknown slug, "NOT_SET" when the stored
   verifier is missing or empty (JavaScript falsy), otherwise whether the
   submitted PIN's verifier equals the stored one.
   */
  function VerifyWishlistPin(st: Store, slug: string, pin: string): (r: PinCheck)
    ensures slug !in st.wishlists ==> r == Checked(false)
    ensures r == NotSet <==> slug in st.wishlists && !Truthy(st.wishlists[slug].pinHash)
    ensures r == Checked(true) <==>
      slug in st.wishlists && Truthy(st.wishlists[slug].pinHash)
      && st.wishlists[slug].pinHash.value == Verifier(st.wishlists[slug].salt, pin)
  {
    if slug !in st.wishlists then Checked(false)
    else
      var w := st.wishlists[slug];
      if !Truthy(w.pinHash) then NotSet
      else Checked(Verifier(w.salt, pin) == w.pinHash.value)
  }

  /**
   The PIN round trip: once `pin` is set, exactly `pin` is accepted and every
   other PIN is rejected.
   */
  lemma {:induction false} SetThenVerify(st: Store, slug: string, pin: string, attempt: string)
    requires Valid(st)
    requires SetWishlistPin(st, slug, pin).Ok?
    ensures VerifyWishlistPin(SetWishlistPin(st, slug, pin).value, slug, attempt)
            == Checked(attempt == pin)
  {
    var st' := SetWishlistPin(st, slug, pin).value;
    var salt := st.wishlists[slug].salt;
    assert st'.wishlists[slug].salt == salt;
    assert Verifier(salt, pin) != [];
    if Verifier(salt, attempt) == Verifier(salt, pin) {
      VerifierInjective(salt, attempt, pin);
    }
  }

  /** A slug exists exactly when setting a PIN on it succeeds. */
  lemma ExistsIffSetPinSucceeds(st: Store, slug: string, pin: string)
    ensures CheckWishlistExists(st, slug) <==> SetWishlistPin(st, slug, pin).Ok?
  {
  }

  /**
   The existence check predicts creation: creating under a slug fails
   exactly when the slug already exists, and afterwards it exists either way.
   */
  lemma ExistsIffCreateFails(
    st: Store, userId: string, customSlug: Option<string>,
    generatedSlug: string, salt: string, newId: string, now: nat)
    requires IsNanoId(generatedSlug, GeneratedSlugLength) && IsNanoId(salt, SaltLength)
    ensures var slug := ChooseSlug(customSlug, generatedSlug);
      var r := CreateWishlist(st, userId, customSlug, generatedSlug, salt, newId, now);
      && (CheckWishlistExists(st, slug) <==> r.Fail?)
      && (r.Ok? ==> CheckWishlistExists(r.value.store, slug))
  {
  }

  /** Each operation keeps the store invariant. */
  lemma CreatePreservesValid(
    st: Store, userId: string, customSlug: Option<string>,
    generatedSlug: string, salt: string, newId: string, now: nat)
    requires Valid(st)
    requires IsNanoId(generatedSlug, GeneratedSlugLength) && IsNanoId(salt, SaltLength)
    requires CreateWishlist(st, userId, customSlug, generatedSlug, salt, newId, now).Ok?
    ensures Valid(CreateWishlist(st, userId, customSlug, generatedSlug, salt, newId, now).value.store)
  {
  }

  /** The fields `addItem` receives; an absent field is stored as null. */
  datatype ItemData = ItemData(name: string, url: Option<string>, price: Option<string>, image: Option<string>)

  datatype Added = Added(store: Store, item: Item)

  /**
   `addItem`: creates one item, with a fresh database id, under the wishlist
   with the given slug; an unknown slug is "Wishlist not found".
   */
  function AddItem(st: Store, slug: string, data: ItemData, newId: string, now: nat): (r: Outcome<Added>)
    requires newId !in st.items
    ensures r.Fail? <==> slug !in st.wishlists
    ensures r.Fail? ==> r.error == WishlistNotFound
    ensures r.Ok? ==>
      && r.value.store.wishlists == st.wishlists
      && r.value.store.items == st.items[newId := r.value.item]
      && |r.value.store.items| == |st.items| + 1
      && r.value.item.id == newId
      && r.value.item.wishlistId == st.wishlists[slug].id
      && r.value.item == Item(newId, st.wishlists[slug].id, data.name, data.url, data.price, data.image, now)
  {
    if slug !in st.wishlists then Fail(WishlistNotFound)
    else
      var item := Item(newId, st.wishlists[slug].id, data.name, data.url, data.price, data.image, now);
      Ok(Added(st.(items := st.items[newId := item]), item))
  }

  /**
   `deleteItem`: removes the item with that id, whatever its wishlist (the
   slug only names the page to refresh); a missing id is the database's
   record-not-found error.
   */
  function DeleteItem(st: Store, itemId: string, slug: string): (r: Outcome<Store>)
    ensures r.Fail? <==> itemId !in st.items
    ensures r.Fail? ==> r.error == RecordNotFound
    ensures r.Ok? ==>
      && r.value.wishlists == st.wishlists
      && r.value.items.Keys == st.items.Keys - {itemId}
      && |r.value.items| == |st.items| - 1
      && (forall i :: i in r.value.items ==> r.value.items[i] == st.items[i])
  {
    if itemId !in st.items then Fail(RecordNotFound)
    else Ok(st.(items := st.items - {itemId}))
  }

  /** One field of an update: an `undefined` value leaves it as it is. */
  datatype Update<T> = Keep | SetTo(value: T) {
    function ApplyTo(current: T): T {
      match this
      case Keep => current
      case SetTo(v) => v
    }
  }

  datatype ItemPatch = ItemPatch(
    name: Update<string>,
    url: Update<Option<string>>,
    price: Update<Option<string>>,
    image: Update<Option<string>>)

  function ApplyPatch(item: Item, patch: ItemPatch): (r: Item)
    ensures r.id == item.id && r.wishlistId == item.wishlistId && r.createdAt == item.createdAt
    ensures patch.name.Keep? ==> r.name == item.name
    ensures patch.name.SetTo? ==> r.name == patch.name.value
    ensures patch.url.Keep? ==> r.url == item.url
    ensures patch.url.SetTo? ==> r.url == patch.url.value
    ensures patch.price.Keep? ==> r.price == item.price
    ensures patch.price.SetTo? ==> r.price == patch.price.value
    ensures patch.image.Keep? ==> r.image == item.image
    ensures patch.image.SetTo? ==> r.image == patch.image.value
  {
    item.(name := patch.name.ApplyTo(item.name),
          url := patch.url.ApplyTo(item.url),
          price := patch.price.ApplyTo(item.price),
          image := patch.image.ApplyTo(item.image))
  }

  /**
   `updateItem`: rewrites the given fields of one item and nothing else; a
   missing id is the database's record-not-found error.
   */
  function UpdateItem(st: Store, itemId: string, slug: string, patch: ItemPatch): (r: Outcome<Store>)
    ensures r.Fail? <==> itemId !in st.items
    ensures r.Fail? ==> r.error == RecordNotFound
    ensures r.Ok? ==>
      && r.value.wishlists == st.wishlists
      && r.value.items.Keys == st.items.Keys
      && (forall i :: i in st.items && i != itemId ==> r.value.items[i] == st.items[i])
      && r.value.items[itemId] == ApplyPatch(st.items[itemId], patch)
  {
    if itemId !in st.items then Fail(RecordNotFound)
    else Ok(st.(items := st.items[itemId := ApplyPatch(st.items[itemId], patch)]))
  }

  /** Item operations keep the store invariant. */
  lemma ItemOperationsPreserveValid(
    st: Store, slug: string, data: ItemData, newId: string, now: nat,
    itemId: string, patch: ItemPatch)
    requires Valid(st)
    requires newId !in st.items
    ensures AddItem(st, slug, data, newId, now).Ok? ==> Valid(AddItem(st, slug, data, newId, now).value.store)
    ensures DeleteItem(st, itemId, slug).Ok? ==> Valid(DeleteItem(st, itemId, slug).value)
    ensures UpdateItem(st, itemId, slug, patch).Ok? ==> Valid(UpdateItem(st, itemId, slug, patch).value)
  {
  }

  /** Deleting the item just added restores the item table. */
  lemma AddThenDelete(st: Store, slug: string, data: ItemData, newId: string, now: nat)
    requires newId !in st.items
    requires AddItem(st, slug, data, newId, now).Ok?
    ensures DeleteItem(AddItem(st, slug, data, newId, now).value.store, newId, slug) == Ok(st)
  {
    var st' := AddItem(st, slug, data, newId, now).value.store;
    assert st'.items - {newId} == st.items;
  }

  /** An unchanged item stays unchanged: an all-`Keep` patch is the identity. */
  lemma EmptyPatchIsIdentity(st: Store, itemId: string, slug: string)
    requires itemId in st.items
    ensures UpdateItem(st, itemId, slug, ItemPatch(Keep, Keep, Keep, Keep)) == Ok(st)
  {
    assert st.items[itemId := st.items[itemId]] == st.items;
  }
}
