/** The remote API's cursor-based pagination, with the network replaced by data.

    A paged endpoint is given as the sequence of answers it would return: the
    k-th request of a fetch loop receives `rs[k]`, either a page or an error.
    Each page holds its items and an optional continuation cursor. */
module Paging {
  import opened Wrappers

  /** Why a request produced no page. */
  datatype ApiError =
    | HttpError(status: int, reason: string)  // the API or the transport reported a failure
    | Unanswered                              // the loop asked for a page beyond the given answers

  /** The error taxonomy of the whole pipeline. */
  datatype FetchError =
    | InvalidInput          // the channel locator does not carry an `@handle`
    | NotFound              // the handle search returned no channel
    | Upstream(cause: ApiError)

  datatype Page<T> = Page(items: seq<T>, nextPageToken: Option<string>)

  type Response<T> = Result<Page<T>, ApiError>

  /** The client library builds a follow-up request only for a present, non-empty cursor. */
  predicate HasNext<T>(p: Page<T>) {
    p.nextPageToken.Some? && p.nextPageToken.value != ""
  }

  /** The items of an answer; a failed answer contributes none. */
  function ItemsOf<T>(r: Response<T>): seq<T> {
    if r.Success? then r.value.items else []
  }

  /** The first `k` answers are all pages that point to a further page. */
  ghost predicate Linked<T>(rs: seq<Response<T>>, k: nat) {
    k <= |rs| && forall i :: 0 <= i < k ==> rs[i].Success? && HasNext(rs[i].value)
  }

  /** The first `n` answers are pages, each but the last pointing to the next one. */
  ghost predicate Walked<T>(rs: seq<Response<T>>, n: nat) {
    n <= |rs| && (n > 0 ==> Linked(rs, n - 1) && rs[n - 1].Success?)
  }

  /** Following cursors from the first answer reaches, as page `n`, a page without a cursor. */
  ghost predicate Complete<T>(rs: seq<Response<T>>, n: nat) {
    n > 0 && Walked(rs, n) && !HasNext(rs[n - 1].value)
  }

  /** The items of the first `n` answers, in page order. */
  function ItemsUpTo<T>(rs: seq<Response<T>>, n: nat): seq<T>
    requires n <= |rs|
  {
    if n == 0 then [] else ItemsOf(rs[0]) + ItemsUpTo(rs[1..], n - 1)
  }

  lemma LinkedTail<T>(rs: seq<Response<T>>, k: nat)
    requires k > 0
    ensures Linked(rs, k) <==> |rs| > 0 && rs[0].Success? && HasNext(rs[0].value) && Linked(rs[1..], k - 1)
  {
    if Linked(rs, k) {
      forall i | 0 <= i < k - 1
        ensures rs[1..][i].Success? && HasNext(rs[1..][i].value)
      {
        assert rs[1..][i] == rs[i + 1];
      }
    }
    if |rs| > 0 && rs[0].Success? && HasNext(rs[0].value) && Linked(rs[1..], k - 1) {
      forall i | 0 <= i < k
        ensures rs[i].Success? && HasNext(rs[i].value)
      {
        if i > 0 {
          assert rs[i] == rs[1..][i - 1];
        }
      }
    }
  }

  lemma WalkedTail<T>(rs: seq<Response<T>>, n: nat)
    requires n > 1
    ensures Walked(rs, n) <==> |rs| > 0 && rs[0].Success? && HasNext(rs[0].value) && Walked(rs[1..], n - 1)
  {
    LinkedTail(rs, n - 1);
    if |rs| >= n {
      assert rs[1..][n - 2] == rs[n - 1];
    }
  }

  /** A cursor chain has at most one end: the number of pages walked is determined. */
  lemma CompleteUnique<T>(rs: seq<Response<T>>, n: nat, m: nat)
    requires Complete(rs, n) && Complete(rs, m)
    ensures n == m
  {
  }
}
