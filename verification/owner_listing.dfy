/**
 The owner's dashboard listing (`GET /api/wishlists?ownerId=…`): the
 wishlists of one owner, newest first, each with its number of items.
 */
module OwnerListing {
  import opened Options
  import opened Text
  import opened Actions

  /** One row of the answer; `createdAt` is the abstract timestamp (sent as an ISO string). */
  datatype Summary = Summary(slug: string, title: string, createdAt: nat, itemsCount: nat)

  datatype ListResponse = BadRequest(error: string) | Listed(wishlists: seq<Summary>)

  const OwnerRequiredText: string := "ownerId is required"

  /** The number of items whose parent is the wishlist with id `wishlistId`. */
  function ItemsCount(st: Store, wishlistId: string): nat {
    |set id | id in st.items && st.items[id].wishlistId == wishlistId|
  }

  /** The row for wishlist `w`. */
  function Project(st: Store, w: Wishlist): (e: Summary)
    ensures e.slug == w.slug && e.title == w.title && e.createdAt == w.createdAt
    ensures e.itemsCount == |set id | id in st.items && st.items[id].wishlistId == w.id|
  {
    Summary(w.slug, w.title, w.createdAt, ItemsCount(st, w.id))
  }

  ghost function OwnedSlugs(st: Store, owner: string): set<string> {
    set s | s in st.wishlists && st.wishlists[s].ownerId == owner
  }

  ghost function SlugsOf(es: seq<Summary>): set<string> {
    set e | e in es :: e.slug
  }

  /** Newest first. */
  predicate SortedDesc(es: seq<Summary>) {
    forall i, j :: 0 <= i < j < |es| ==> es[i].createdAt >= es[j].createdAt
  }

  predicate Distinct(es: seq<Summary>) {
    forall i, j :: 0 <= i < j < |es| ==> es[i] != es[j]
  }

  /**
   The answer for `owner`: newest first, one row per wishlist of that owner
   (no other wishlist, none twice), each row projected from its wishlist.
   */
  ghost predicate Describes(st: Store, owner: string, es: seq<Summary>) {
    && SortedDesc(es)
    && (forall i :: 0 <= i < |es| ==>
          es[i].slug in OwnedSlugs(st, owner) && es[i] == Project(st, st.wishlists[es[i].slug]))
    && (forall s :: s in OwnedSlugs(st, owner) ==> s in SlugsOf(es))
    && (forall i, j :: 0 <= i < j < |es| ==> es[i].slug != es[j].slug)
  }

  /** Prepending a row no older than every other row keeps the list newest first. */
  lemma SortedCons(a: Summary, rest: seq<Summary>)
    requires SortedDesc(rest)
    requires forall x :: x in rest ==> x.createdAt <= a.createdAt
    ensures SortedDesc([a] + rest)
  {
    var r := [a] + rest;
    forall i, j | 0 <= i < j < |r|
      ensures r[i].createdAt >= r[j].createdAt
    {
      if i == 0 {
        assert r[j] == rest[j - 1];
      } else {
        assert r[i] == rest[i - 1] && r[j] == rest[j - 1];
      }
    }
  }

  /** Prepending a row that is not in a duplicate-free list keeps it duplicate-free. */
  lemma DistinctCons(a: Summary, rest: seq<Summary>)
    requires Distinct(rest) && a !in rest
    ensures Distinct([a] + rest)
  {
    var r := [a] + rest;
    forall i, j | 0 <= i < j < |r|
      ensures r[i] != r[j]
    {
      assert r[j] == rest[j - 1];
      if i > 0 {
        assert r[i] == rest[i - 1];
      }
    }
  }

  /** Inserts `e` before the first row that is not newer than it. */
  function InsertDesc(es: seq<Summary>, e: Summary): (r: seq<Summary>)
    requires SortedDesc(es)
    ensures SortedDesc(r)
    ensures |r| == |es| + 1
    ensures forall x :: x in r <==> x in es || x == e
    ensures Distinct(es) && e !in es ==> Distinct(r)
  {
    if es == [] then [e]
    else if es[0].createdAt <= e.createdAt then
      SortedCons(e, es);
      if Distinct(es) && e !in es then DistinctCons(e, es); [e] + es else [e] + es
    else
      var head, tail := es[0], es[1..];
      assert es == [head] + tail;
      var rest := InsertDesc(tail, e);
      assert forall x :: x in rest ==> x.createdAt <= head.createdAt by {
        forall x | x in rest
          ensures x.createdAt <= head.createdAt
        {
          if x in tail {
            var k :| 0 <= k < |tail| && tail[k] == x;
            assert es[k + 1] == x;
          }
        }
      }
      SortedCons(head, rest);
      TailDistinct(es);
      if Distinct(es) && e !in es then DistinctCons(head, rest); [head] + rest else [head] + rest
  }

  /** The tail of a duplicate-free list is duplicate-free and misses the head. */
  lemma TailDistinct(es: seq<Summary>)
    requires es != []
    ensures Distinct(es) ==> Distinct(es[1..]) && es[0] !in es[1..]
  {
    if Distinct(es) {
      var tail := es[1..];
      forall i, j | 0 <= i < j < |tail|
        ensures tail[i] != tail[j]
      {
        assert tail[i] == es[i + 1] && tail[j] == es[j + 1];
      }
    }
  }

  /** `GET`: a missing or empty owner is a 400; otherwise the owner's wishlists, newest first, with item counts. */
  method ListWishlists(st: Store, ownerId: Option<string>) returns (resp: ListResponse)
    requires Valid(st)
    ensures !Truthy(ownerId) ==> resp == BadRequest(OwnerRequiredText)
    ensures Truthy(ownerId) ==> resp.Listed? && Describes(st, ownerId.value, resp.wishlists)
  {
    if !Truthy(ownerId) {
      return BadRequest(OwnerRequiredText);
    }
    var owner := ownerId.value;
    var remaining := st.wishlists.Keys;
    var out: seq<Summary> := [];
    while remaining != {}
      invariant remaining <= st.wishlists.Keys
      invariant SortedDesc(out) && Distinct(out)
      invariant forall i :: 0 <= i < |out| ==>
        && out[i].slug in OwnedSlugs(st, owner)
        && out[i].slug !in remaining
        && out[i] == Project(st, st.wishlists[out[i].slug])
      invariant forall s :: s in OwnedSlugs(st, owner) && s !in remaining ==> s in SlugsOf(out)
      decreases remaining
    {
      var s :| s in remaining;
      remaining := remaining - {s};
      var w := st.wishlists[s];
      if w.ownerId == owner {
        var e := Project(st, w);
        assert e !in out;
        var prev := out;
        out := InsertDesc(out, e);
        forall i | 0 <= i < |out|
          ensures && out[i].slug in OwnedSlugs(st, owner)
                  && out[i].slug !in remaining
                  && out[i] == Project(st, st.wishlists[out[i].slug])
        {
          assert out[i] in prev || out[i] == e;
          if out[i] in prev {
            var k :| 0 <= k < |prev| && prev[k] == out[i];
          }
        }
        forall t | t in OwnedSlugs(st, owner) && t !in remaining
          ensures t in SlugsOf(out)
        {
          if t == s {
            assert e in out;
          } else {
            var x :| x in prev && x.slug == t;
            assert x in out;
          }
        }
      }
    }
    return Listed(out);
  }
}
