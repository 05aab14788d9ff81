/** The iterator over paged query results (`CommonIterator` in shim/stub.go). */
module PagedIterator {
  import opened Prelude

  datatype Page = Page(results: seq<Bytes>, hasMore: bool)

  datatype IterError = BadResult | FetchFailed | NoSuchKey | InvalidState

  /** What the iterator holds, and what the peer will answer to its next fetches (None is a failed fetch). */
  datatype Iter = Iter(page: Page, loc: nat, peer: seq<Option<Page>>) {
    predicate Valid() {
      loc <= |page.results|
    }

    predicate HasNext() {
      loc < |page.results| || page.hasMore
    }

    /** The results of the current page that have not been returned. */
    function Left(): seq<Bytes>
      requires Valid()
    {
      page.results[loc..]
    }
  }

  /** How result bytes decode; bytes outside the map do not. */
  type Decoder<T> = imap<Bytes, T>

  /** One call of `nextResult`: the last result of a page is returned only if the next page can be fetched. */
  function NextResult<T>(decode: Decoder<T>, it: Iter): (r: (Iter, Result<T, IterError>))
    requires it.Valid()
    ensures r.0.Valid()
  {
    if it.loc < |it.page.results| then
      if it.page.results[it.loc] !in decode then (it, Err(BadResult))
      else
        var item := decode[it.page.results[it.loc]];
        var moved := it.(loc := it.loc + 1);
        if moved.loc == |it.page.results| && it.page.hasMore then
          if |it.peer| == 0 then (moved, Err(FetchFailed))
          else if it.peer[0].None? then (moved.(peer := it.peer[1..]), Err(FetchFailed))
          else (Iter(it.peer[0].value, 0, it.peer[1..]), Ok(item))
        else (moved, Ok(item))
    else if !it.page.hasMore then (it, Err(NoSuchKey))
    else (it, Err(InvalidState))
  }

  /** Exactly what a call returns: the item, or which error, and whether the iterator moves. */
  lemma NextExactly<T>(decode: Decoder<T>, it: Iter)
    requires it.Valid()
    ensures var (it', r) := NextResult(decode, it);
            var left := it.page.results[it.loc..];
            var fetches := |left| == 1 && it.page.hasMore;
            && (r == Err(NoSuchKey) <==> |left| == 0 && !it.page.hasMore)
            && (r == Err(InvalidState) <==> |left| == 0 && it.page.hasMore)
            && (r == Err(BadResult) <==> |left| > 0 && left[0] !in decode)
            && (r == Err(FetchFailed) <==> |left| > 0 && left[0] in decode && fetches && (it.peer == [] || it.peer[0] == None))
            && (r.Ok? ==> r.value == decode[left[0]])
            && (r == Err(NoSuchKey) || r == Err(InvalidState) || r == Err(BadResult) ==> it' == it)
            && (r.Ok? && !fetches ==> it' == Iter(it.page, it.loc + 1, it.peer))
            && (r.Ok? && fetches ==> it' == Iter(it.peer[0].value, 0, it.peer[1..]))
            && (r == Err(FetchFailed) ==> it'.page == it.page && it'.loc == |it.page.results|)
  {
  }

  class CommonIterator<T> {
    const decode: Decoder<T>
    var response: Page
    var currentLoc: nat
    var peer: seq<Option<Page>>

    ghost function State(): Iter
      reads this
    {
      Iter(response, currentLoc, peer)
    }

    constructor (decode: Decoder<T>, response: Page, peer: seq<Option<Page>>)
      ensures this.decode == decode
      ensures State() == Iter(response, 0, peer) && State().Valid()
    {
      this.decode, this.response, this.currentLoc, this.peer := decode, response, 0, peer;
    }

    method HasNext() returns (more: bool)
      ensures more == State().HasNext()
    {
      if currentLoc < |response.results| || response.hasMore {
        return true;
      }
      return false;
    }

    method FetchNextQueryResult() returns (err: Option<IterError>)
      modifies this
      ensures err.None? <==> |old(peer)| > 0 && old(peer)[0].Some?
      ensures err.None? ==> State() == Iter(old(peer)[0].value, 0, old(peer)[1..])
      ensures err.Some? ==> err == Some(FetchFailed)
      ensures err.Some? ==> State() == old(State()).(peer := if |old(peer)| == 0 then [] else old(peer)[1..])
    {
      if |peer| == 0 {
        return Some(FetchFailed);
      }
      var answer := peer[0];
      peer := peer[1..];
      if answer.None? {
        return Some(FetchFailed);
      }
      currentLoc := 0;
      response := answer.value;
      return None;
    }

    method Next() returns (r: Result<T, IterError>)
      requires State().Valid()
      modifies this
      ensures (State(), r) == NextResult(decode, old(State()))
    {
      if currentLoc < |response.results| {
        if response.results[currentLoc] !in decode {
          return Err(BadResult);
        }
        var item := decode[response.results[currentLoc]];
        currentLoc := currentLoc + 1;
        if currentLoc == |response.results| && response.hasMore {
          var err := FetchNextQueryResult();
          if err.Some? {
            return Err(err.value);
          }
        }
        return Ok(item);
      } else if !response.hasMore {
        return Err(NoSuchKey);
      }
      return Err(InvalidState);
    }
  }

  // ---------- repeated calls ----------

  function After<T>(decode: Decoder<T>, it: Iter, n: nat): (r: Iter)
    requires it.Valid()
    ensures r.Valid()
    decreases n
  {
    if n == 0 then it else After(decode, NextResult(decode, it).0, n - 1)
  }

  /** What n calls of `Next` return. */
  function Returned<T>(decode: Decoder<T>, it: Iter, n: nat): seq<Result<T, IterError>>
    requires it.Valid()
    decreases n
  {
    if n == 0 then []
    else [NextResult(decode, it).1] + Returned(decode, NextResult(decode, it).0, n - 1)
  }

  /** Pages as their sender must cut them: every result decodes and no page is empty while it promises more. */
  ghost predicate Healthy<T>(decode: Decoder<T>, it: Iter)
    requires it.Valid()
    decreases |it.peer|
  {
    && (forall x :: x in it.Left() ==> x in decode)
    && (it.page.hasMore ==>
          && |it.Left()| > 0
          && |it.peer| > 0 && it.peer[0].Some?
          && Healthy(decode, Iter(it.peer[0].value, 0, it.peer[1..])))
  }

  /** The concatenation of what is left of this page and of all later pages, decoded. */
  ghost function Items<T>(decode: Decoder<T>, it: Iter): seq<T>
    requires it.Valid() && Healthy(decode, it)
    decreases |it.peer|
  {
    DecodeAll(decode, it.Left()) +
    if it.page.hasMore then Items(decode, Iter(it.peer[0].value, 0, it.peer[1..])) else []
  }

  ghost function DecodeAll<T>(decode: Decoder<T>, results: seq<Bytes>): seq<T>
    requires forall x :: x in results ==> x in decode
  {
    seq(|results|, i requires 0 <= i < |results| => decode[results[i]])
  }

  lemma DecodeCons<T>(decode: Decoder<T>, results: seq<Bytes>)
    requires |results| > 0 && forall x :: x in results ==> x in decode
    ensures forall x :: x in results[1..] ==> x in decode
    ensures DecodeAll(decode, results) == [decode[results[0]]] + DecodeAll(decode, results[1..])
  {
  }

  lemma DecodeNone<T>(decode: Decoder<T>)
    ensures DecodeAll(decode, []) == []
  {
  }

  lemma NextKeepsHealth<T>(decode: Decoder<T>, it: Iter)
    requires it.Valid() && Healthy(decode, it) && it.HasNext()
    ensures var (it', r) := NextResult(decode, it);
            && Healthy(decode, it')
            && |Items(decode, it)| > 0
            && r == Ok(Items(decode, it)[0])
            && Items(decode, it') == Items(decode, it)[1..]
  {
    hide DecodeAll;
    var it' := NextResult(decode, it).0;
    var left := it.Left();
    assert left[0] in left && left[0] == it.page.results[it.loc];
    DecodeCons(decode, left);
    if it.loc + 1 == |it.page.results| && it.page.hasMore {
      assert left[1..] == [];
      DecodeNone(decode);
      assert Items(decode, it) == [decode[left[0]]] + Items(decode, it');
    } else {
      assert it'.Left() == left[1..];
      assert Healthy(decode, it');
      assert Items(decode, it) == [decode[left[0]]] + Items(decode, it');
    }
  }

  lemma ItemsLeft<T>(decode: Decoder<T>, it: Iter)
    requires it.Valid() && Healthy(decode, it)
    ensures it.HasNext() <==> |Items(decode, it)| > 0
  {
    if it.HasNext() {
      NextKeepsHealth(decode, it);
    }
  }

  ghost function Oks<T>(items: seq<T>): seq<Result<T, IterError>> {
    if |items| == 0 then [] else [Ok(items[0])] + Oks(items[1..])
  }

  /**
   Over healthy pages the first n calls of `Next` return the first n items of the concatenated pages, and `HasNext`
   turns false exactly when all have been returned.
   */
  lemma {:induction false} ReturnsEveryItemOnce<T>(decode: Decoder<T>, it: Iter, n: nat)
    requires it.Valid() && Healthy(decode, it)
    requires n <= |Items(decode, it)|
    ensures Returned(decode, it, n) == Oks(Items(decode, it)[..n])
    ensures After(decode, it, n).HasNext() <==> n < |Items(decode, it)|
    decreases n
  {
    hide NextResult, Items, Healthy;
    ItemsLeft(decode, it);
    if n > 0 {
      NextKeepsHealth(decode, it);
      ReturnsEveryItemOnce(decode, NextResult(decode, it).0, n - 1);
      var items := Items(decode, it);
      assert items[..n][1..] == items[1..][..n - 1];
    }
  }

  /** Whoever trusts `HasNext` never sees an error. */
  ghost predicate Trustworthy<T>(decode: Decoder<T>, it: Iter)
    requires it.Valid()
  {
    forall n: nat :: After(decode, it, n).HasNext() ==> NextResult(decode, After(decode, it, n)).1.Ok?
  }

  lemma {:induction false} HealthAfter<T>(decode: Decoder<T>, it: Iter, n: nat)
    requires it.Valid() && Healthy(decode, it)
    ensures Healthy(decode, After(decode, it, n))
    decreases n
  {
    if n > 0 {
      if it.HasNext() {
        NextKeepsHealth(decode, it);
      }
      HealthAfter(decode, NextResult(decode, it).0, n - 1);
    }
  }

  lemma {:induction false} TrustNeedsHealth<T>(decode: Decoder<T>, it: Iter)
    requires it.Valid() && Trustworthy(decode, it)
    ensures Healthy(decode, it)
    decreases |it.peer|, |it.page.results| - it.loc
  {
    assert After(decode, it, 0) == it;
    if it.HasNext() {
      var it' := NextResult(decode, it).0;
      forall n: nat | After(decode, it', n).HasNext() ensures NextResult(decode, After(decode, it', n)).1.Ok? {
        assert After(decode, it, n + 1) == After(decode, it', n);
      }
      TrustNeedsHealth(decode, it');
      var left := it.Left();
      assert left == [left[0]] + left[1..];
      if it'.page == it.page && it'.peer == it.peer {
        assert it'.Left() == left[1..];
      }
    }
  }

  /** `HasNext` keeps its word over a whole run if and only if the pages are healthy. */
  lemma TrustExactlyHealth<T>(decode: Decoder<T>, it: Iter)
    requires it.Valid()
    ensures Trustworthy(decode, it) <==> Healthy(decode, it)
  {
    if Healthy(decode, it) {
      forall n: nat | After(decode, it, n).HasNext() ensures NextResult(decode, After(decode, it, n)).1.Ok? {
        HealthAfter(decode, it, n);
        NextKeepsHealth(decode, After(decode, it, n));
      }
    } else if Trustworthy(decode, it) {
      TrustNeedsHealth(decode, it);
    }
  }

  /**
   Whatever a run returned before its first error, an exhausted page that promises more is final: `HasNext` stays
   true and every further `Next` fails. A failed prefetch ends there, and loses the result it had already decoded.
   */
  lemma {:induction false} StuckForever<T>(decode: Decoder<T>, it: Iter, n: nat)
    requires it.Valid() && it.loc == |it.page.results| && it.page.hasMore
    ensures After(decode, it, n) == it && it.HasNext()
    ensures NextResult(decode, After(decode, it, n)).1 == Err(InvalidState)
    decreases n
  {
    if n > 0 {
      StuckForever(decode, it, n - 1);
    }
  }

  lemma FailedPrefetchLosesAnItem<T>(decode: Decoder<T>, it: Iter, n: nat)
    requires it.Valid() && it.page.hasMore && |it.Left()| == 1 && it.Left()[0] in decode
    requires |it.peer| == 0 || it.peer[0].None?
    ensures it.HasNext() && NextResult(decode, it).1 == Err(FetchFailed)
    ensures n > 0 ==> NextResult(decode, After(decode, it, n)).1 == Err(InvalidState)
  {
    var it' := NextResult(decode, it).0;
    if n > 0 {
      StuckForever(decode, it', n - 1);
    }
  }
}
