/**
 * The query's client-side state as a value, the effect of decoding one page
 * on it, and the poll loop run over a finite list of server responses.
 */
module QuerySession {
  import opened Wrappers
  import opened Response
  import opened SeqFacts

  /**
   * The fields a page updates: the continuation URL (None is PHP false), the
   * info and partial-cancel URLs, the state (None is PHP null) and the rows
   * accumulated so far.
   */
  datatype Session = Session(
    nextUri: Option<string>,
    infoUri: string,
    partialCancelUri: string,
    state: Option<string>,
    data: seq<Row>)

  /** PHP truthiness of the continuation field: false, "" and "0" are falsy. */
  predicate Truthy(u: Option<string>)
  {
    u.Some? && u.value != "" && u.value != "0"
  }

  /**
   * Decoding one page: the continuation URL is replaced or cleared, the
   * other URLs are replaced only when present, the state only when `stats`
   * is present (and then even by null), and the page's rows are appended.
   */
  function Step(s: Session, p: Page): Session
  {
    Session(
      if p.nextUri.Some? then p.nextUri else None,
      if p.infoUri.Some? then p.infoUri.value else s.infoUri,
      if p.partialCancelUri.Some? then p.partialCancelUri.value else s.partialCancelUri,
      if p.stats.Some? then p.stats.value.state else s.state,
      s.data + PageRows(p))
  }

  /** Step, field by field. */
  lemma StepFields(s: Session, p: Page, r: Session)
    requires r.nextUri == p.nextUri
    requires r.infoUri == if p.infoUri.Some? then p.infoUri.value else s.infoUri
    requires r.partialCancelUri == if p.partialCancelUri.Some? then p.partialCancelUri.value else s.partialCancelUri
    requires r.state == if p.stats.Some? then p.stats.value.state else s.state
    requires r.data == s.data + PageRows(p)
    ensures r == Step(s, p)
  {
  }

  /** An undecodable body only clears the continuation URL; it raises no error. */
  lemma StepEmptyPage(s: Session)
    ensures Step(s, EmptyPage) == s.(nextUri := None)
  {
  }

  /** Decoding a run of pages one after the other, with no stopping rule. */
  function Replay(s: Session, pages: seq<Page>): Session
    decreases |pages|
  {
    if pages == [] then s
    else Step(Replay(s, pages[..|pages| - 1]), pages[|pages| - 1])
  }

  /**
   * The poll loop from state s: while the continuation URL is truthy, fetch
   * the next response and decode it. The responses are the successive GETs;
   * a GET past the end of the list is a failed fetch, whose body decodes to
   * nothing, i.e. the empty page.
   */
  function Poll(s: Session, pages: seq<Page>): (r: Session)
    ensures !Truthy(r.nextUri)
    decreases |pages|
  {
    if !Truthy(s.nextUri) then s
    else if pages == [] then Step(s, EmptyPage)
    else Poll(Step(s, pages[0]), pages[1..])
  }

  /** The i-th response of the poll loop; a GET past the given ones fails and decodes to nothing. */
  function FetchResponse(pages: seq<Page>, i: nat): Page
  {
    if i < |pages| then pages[i] else EmptyPage
  }

  /** The URLs the poll loop fetches, in order: each one is truthy. */
  function Fetched(s: Session, pages: seq<Page>): (urls: seq<string>)
    ensures forall i :: 0 <= i < |urls| ==> urls[i] != "" && urls[i] != "0"
    ensures |urls| <= |pages| + 1
    ensures urls != [] <==> Truthy(s.nextUri)
    decreases |pages|
  {
    if !Truthy(s.nextUri) then []
    else [s.nextUri.value] + (if pages == [] then [] else Fetched(Step(s, pages[0]), pages[1..]))
  }

  /** How many of the given responses the poll loop consumes. */
  function Consumed(s: Session, pages: seq<Page>): (n: nat)
    ensures n <= |pages|
    ensures n <= |Fetched(s, pages)|
    decreases |pages|
  {
    if !Truthy(s.nextUri) || pages == [] then 0
    else 1 + Consumed(Step(s, pages[0]), pages[1..])
  }

  /** Accumulated rows are the in-order concatenation of every page's rows. */
  lemma {:induction false} ReplayData(s: Session, pages: seq<Page>)
    ensures Replay(s, pages).data == s.data + AllRows(pages)
    decreases |pages|
  {
    if pages != [] {
      ReplayData(s, pages[..|pages| - 1]);
    }
  }

  lemma {:induction false} ReplayCons(s: Session, p: Page, pages: seq<Page>)
    ensures Replay(s, [p] + pages) == Replay(Step(s, p), pages)
    decreases |pages|
  {
    if pages == [] {
      ConsPrefix(p, pages, 0);
    } else {
      var n := |pages| - 1;
      ReplayCons(s, p, pages[..n]);
      ConsPrefix(p, pages, n);
    }
  }

  /** One round of the poll loop: fetch and decode the next response. */
  lemma PollUnfold(s: Session, pages: seq<Page>)
    requires Truthy(s.nextUri) && pages != []
    ensures Poll(s, pages) == Poll(Step(s, pages[0]), pages[1..])
    ensures Consumed(s, pages) == 1 + Consumed(Step(s, pages[0]), pages[1..])
    ensures Fetched(s, pages) == [s.nextUri.value] + Fetched(Step(s, pages[0]), pages[1..])
  {
  }

  /** The round after the last given response: the fetch fails and the loop ends. */
  lemma PollFailedFetch(s: Session)
    requires Truthy(s.nextUri)
    ensures Poll(s, []) == Step(s, EmptyPage) == Poll(Step(s, EmptyPage), [])
    ensures Fetched(s, []) == [s.nextUri.value] && Fetched(Step(s, EmptyPage), []) == []
  {
  }

  /**
   * One round of the loop keeps the loop's outcome and its list of fetched
   * URLs: the round fetches the current URL and decodes the i-th response.
   */
  lemma PollRound(start: Session, pages: seq<Page>, s: Session, i: nat, fetched: seq<string>)
    requires Truthy(s.nextUri) && i <= |pages|
    requires Poll(s, pages[i..]) == Poll(start, pages)
    requires fetched + Fetched(s, pages[i..]) == Fetched(start, pages)
    ensures var next := if i < |pages| then i + 1 else i;
            var s' := Step(s, FetchResponse(pages, i));
            && Poll(s', pages[next..]) == Poll(start, pages)
            && (fetched + [s.nextUri.value]) + Fetched(s', pages[next..]) == Fetched(start, pages)
            && (i == |pages| ==> !Truthy(s'.nextUri))
  {
    if i < |pages| {
      TailSlice(pages, i);
      PollUnfold(s, pages[i..]);
      AppendAssoc(fetched, [s.nextUri.value], Fetched(Step(s, pages[i]), pages[i + 1..]));
    } else {
      PollFailedFetch(s);
      AppendAssoc(fetched, [s.nextUri.value], []);
    }
  }

  /**
   * The poll loop leaves the same URLs, state and rows as decoding exactly
   * the responses it consumes; only the continuation field may differ.
   */
  lemma {:induction false} PollIsReplay(s: Session, pages: seq<Page>)
    ensures Poll(s, pages).(nextUri := None) == Replay(s, pages[..Consumed(s, pages)]).(nextUri := None)
    decreases |pages|
  {
    if !Truthy(s.nextUri) {
      assert pages[..Consumed(s, pages)] == [];
    } else if pages == [] {
      StepEmptyPage(s);
    } else {
      var s1 := Step(s, pages[0]);
      var rest := pages[1..];
      var n := Consumed(s1, rest);
      PollUnfold(s, pages);
      PollIsReplay(s1, rest);
      ReplayCons(s, pages[0], rest[..n]);
      ConsSlice(pages, n);
    }
  }

  /** The rows left by the poll loop: the consumed pages' rows, in order, after the existing ones. */
  lemma PollData(s: Session, pages: seq<Page>)
    ensures Poll(s, pages).data == s.data + AllRows(pages[..Consumed(s, pages)])
  {
    PollIsReplay(s, pages);
    ReplayData(s, pages[..Consumed(s, pages)]);
  }

  /**
   * The loop stops at the first page without a truthy `nextUri`: its
   * outcome is that of decoding the pages up to and including that one.
   */
  lemma {:induction false} PollStopsAtFirstFinalPage(s: Session, pages: seq<Page>, k: nat)
    requires Truthy(s.nextUri)
    requires k < |pages|
    requires forall j :: 0 <= j < k ==> Truthy(pages[j].nextUri)
    requires !Truthy(pages[k].nextUri)
    ensures Poll(s, pages) == Replay(s, pages[..k + 1])
    decreases k
  {
    var s1 := Step(s, pages[0]);
    var rest := pages[1..];
    assert Poll(s, pages) == Poll(s1, rest);
    if k == 0 {
      ReplayCons(s, pages[0], []);
      ConsSlice(pages, 0);
    } else {
      assert forall j :: 0 <= j < k - 1 ==> rest[j] == pages[j + 1];
      PollStopsAtFirstFinalPage(s1, rest, k - 1);
      ReplayCons(s, pages[0], rest[..k]);
      ConsSlice(pages, k);
    }
  }

  /**
   * The loop consumes the pages up to the first one without a truthy
   * `nextUri`. It fetches once for the truthy URL it starts with and once
   * more for each page before that one, at exactly that page's URL.
   */
  lemma {:induction false} FetchedUntilFirstFinalPage(s: Session, pages: seq<Page>, k: nat)
    requires Truthy(s.nextUri)
    requires k < |pages|
    requires forall j :: 0 <= j < k ==> Truthy(pages[j].nextUri)
    requires !Truthy(pages[k].nextUri)
    ensures Consumed(s, pages) == k + 1
    ensures |Fetched(s, pages)| == k + 1 && Fetched(s, pages)[0] == s.nextUri.value
    ensures forall j :: 0 <= j < k ==> Some(Fetched(s, pages)[j + 1]) == pages[j].nextUri
    decreases k
  {
    var s1 := Step(s, pages[0]);
    var rest := pages[1..];
    assert Fetched(s, pages) == [s.nextUri.value] + Fetched(s1, rest);
    if k > 0 {
      FetchedUntilFirstFinalPage(s1, rest, k - 1);
      assert forall j :: 0 < j < k ==> rest[j - 1] == pages[j];
    }
  }

  /**
   * When every given response still carries a truthy `nextUri`, the loop
   * consumes them all and one more fetch fails, which ends it.
   */
  lemma {:induction false} PollExhausted(s: Session, pages: seq<Page>)
    requires Truthy(s.nextUri)
    requires forall j :: 0 <= j < |pages| ==> Truthy(pages[j].nextUri)
    ensures Consumed(s, pages) == |pages|
    ensures |Fetched(s, pages)| == |pages| + 1 && Fetched(s, pages)[0] == s.nextUri.value
    ensures forall j :: 0 <= j < |pages| ==> Some(Fetched(s, pages)[j + 1]) == pages[j].nextUri
    ensures Poll(s, pages) == Replay(s, pages).(nextUri := None)
    decreases |pages|
  {
    if pages == [] {
      StepEmptyPage(s);
    } else {
      var s1 := Step(s, pages[0]);
      var rest := pages[1..];
      PollUnfold(s, pages);
      PollExhausted(s1, rest);
      ReplayCons(s, pages[0], rest);
      ConsWhole(pages);
      assert forall j :: 0 < j < |pages| ==> rest[j - 1] == pages[j];
    }
  }

  /**
   * The info URL persists while pages omit it: after a run of pages it is
   * the one the last carrying page brought, or the prior one if none did.
   */
  lemma {:induction false} ReplayInfoUri(s: Session, pages: seq<Page>, k: nat)
    requires k <= |pages|
    requires forall j :: k <= j < |pages| ==> pages[j].infoUri.None?
    ensures k == 0 ==> Replay(s, pages).infoUri == s.infoUri
    ensures k > 0 && pages[k - 1].infoUri.Some? ==> Replay(s, pages).infoUri == pages[k - 1].infoUri.value
    decreases |pages|
  {
    if pages != [] {
      var n := |pages| - 1;
      if k <= n {
        ReplayInfoUri(s, pages[..n], k);
      }
    }
  }

  /**
   * The partial-cancel URL persists while pages omit it: after a run of
   * pages it is the one the last carrying page brought, or the prior one.
   */
  lemma {:induction false} ReplayCancelUri(s: Session, pages: seq<Page>, k: nat)
    requires k <= |pages|
    requires forall j :: k <= j < |pages| ==> pages[j].partialCancelUri.None?
    ensures k == 0 ==> Replay(s, pages).partialCancelUri == s.partialCancelUri
    ensures k > 0 && pages[k - 1].partialCancelUri.Some? ==> Replay(s, pages).partialCancelUri == pages[k - 1].partialCancelUri.value
    decreases |pages|
  {
    if pages != [] {
      var n := |pages| - 1;
      if k <= n {
        ReplayCancelUri(s, pages[..n], k);
      }
    }
  }

  /**
   * The state changes only on pages that carry `stats`: after a run of
   * pages it is the state of the last such page, verbatim (null included),
   * or the prior state if none carried `stats`.
   */
  lemma {:induction false} ReplayState(s: Session, pages: seq<Page>, k: nat)
    requires k <= |pages|
    requires forall j :: k <= j < |pages| ==> pages[j].stats.None?
    ensures k == 0 ==> Replay(s, pages).state == s.state
    ensures k > 0 && pages[k - 1].stats.Some? ==> Replay(s, pages).state == pages[k - 1].stats.value.state
    decreases |pages|
  {
    if pages != [] {
      var n := |pages| - 1;
      if k <= n {
        ReplayState(s, pages[..n], k);
      }
    }
  }
}
