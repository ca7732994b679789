/**
 * The chat aggregate: the running statistics one chat keeps, the rule that
 * folds one entry into them, and the mutable record the importer updates in
 * place. Entries reach a chat in any order; every comparison is on entry
 * timestamps.
 */
module Chats {
  import opened Entries

  /** The stored fields of a chat, as a value (the storage id is not modelled). */
  datatype ChatState = ChatState(
    chatId: string,
    authors: seq<string>,
    title: string,
    url: string,
    start: int,
    end: int,
    /** Timestamp of the earliest support reply; 0 means none yet. */
    firstResponser: int,
    /** Support replies. */
    interactions: int,
    customerInteractions: int,
    customerWords: int,
    supportWords: int,
    customerLastResponder: bool,
    channel: Channel,
    respondedWithLink: bool,
    respondedWithDoc: bool)

  function Min(a: int, b: int): int { if a <= b then a else b }
  function Max(a: int, b: int): int { if a <= b then b else a }

  /** No name occurs twice. */
  predicate NoDuplicates(s: seq<string>) {
    forall i, j :: 0 <= i < j < |s| ==> s[i] != s[j]
  }

  /** The author list after a support reply by `a`: appended when unseen, else unchanged. */
  function WithAuthor(authors: seq<string>, a: string): seq<string> {
    if a in authors then authors else authors + [a]
  }

  /** The new earliest support reply once a support entry at `ts` arrives. */
  function EarlierResponse(first: int, ts: int): int {
    if first == 0 then ts else if first > ts then ts else first
  }

  /** What UpdateEntry reads from an entry. */
  datatype Reading = Reading(
    timestamp: int, customer: bool, author: string, words: nat, link: bool, doc: bool)

  function ReadingOf(e: Entry): Reading {
    Reading(e.timestamp, IsCustomer(e), e.author, WordCount(e), HasLink(e), HasDocLink(e))
  }

  /**
   * The fold, on what it reads from the entry, field by field: start and end
   * move out to the entry's timestamp; a strictly later entry also decides the
   * last-responder flag; a customer entry counts towards the customer totals,
   * a support entry towards the support totals, the author list, the first
   * response and the two link flags.
   */
  function Step(c: ChatState, r: Reading): ChatState {
    var support := !r.customer;
    ChatState(
      chatId := c.chatId,
      authors := if support then WithAuthor(c.authors, r.author) else c.authors,
      title := c.title,
      url := c.url,
      start := if c.start > r.timestamp then r.timestamp else c.start,
      end := if c.end < r.timestamp then r.timestamp else c.end,
      firstResponser := if support then EarlierResponse(c.firstResponser, r.timestamp) else c.firstResponser,
      interactions := if support then c.interactions + 1 else c.interactions,
      customerInteractions := if support then c.customerInteractions else c.customerInteractions + 1,
      customerWords := if support then c.customerWords else c.customerWords + r.words,
      supportWords := if support then c.supportWords + r.words else c.supportWords,
      customerLastResponder := if c.end < r.timestamp then r.customer else c.customerLastResponder,
      channel := c.channel,
      respondedWithLink := c.respondedWithLink || (support && r.link),
      respondedWithDoc := c.respondedWithDoc || (support && r.doc))
  }

  /** Chat.UpdateEntry as a function of the old state and the entry. */
  function Fold(c: ChatState, e: Entry): ChatState {
    Step(c, ReadingOf(e))
  }

  /** Folding a sequence of entries in arrival order. */
  function FoldAll(c: ChatState, es: seq<Entry>): ChatState
    decreases |es|
  {
    if es == [] then c else FoldAll(Fold(c, es[0]), es[1..])
  }

  // ---------------------------------------------------------------------------
  // What one fold does

  /** Start and end become the minimum and maximum with the entry's timestamp. */
  lemma FoldSpan(c: ChatState, e: Entry)
    ensures Fold(c, e).start == Min(c.start, e.timestamp)
    ensures Fold(c, e).end == Max(c.end, e.timestamp)
    ensures c.start <= c.end ==> Fold(c, e).start <= Fold(c, e).end
  {
  }

  /** The last-responder flag moves only on a strictly later entry, and then says who wrote it. */
  lemma FoldLastResponder(c: ChatState, e: Entry)
    ensures e.timestamp > c.end ==> Fold(c, e).customerLastResponder == IsCustomer(e)
    ensures e.timestamp <= c.end ==> Fold(c, e).customerLastResponder == c.customerLastResponder
  {
  }

  /** Exactly one interaction counter grows by one, and only its word counter grows, by the reply's words. */
  lemma FoldCounters(c: ChatState, e: Entry)
    ensures IsCustomer(e) ==>
      Fold(c, e).customerInteractions == c.customerInteractions + 1
      && Fold(c, e).customerWords == c.customerWords + WordCount(e)
      && Fold(c, e).interactions == c.interactions
      && Fold(c, e).supportWords == c.supportWords
    ensures !IsCustomer(e) ==>
      Fold(c, e).interactions == c.interactions + 1
      && Fold(c, e).supportWords == c.supportWords + WordCount(e)
      && Fold(c, e).customerInteractions == c.customerInteractions
      && Fold(c, e).customerWords == c.customerWords
  {
  }

  /** A support author is appended when new; nothing else touches the list. */
  lemma FoldAuthors(c: ChatState, e: Entry)
    ensures IsCustomer(e) ==> Fold(c, e).authors == c.authors
    ensures !IsCustomer(e) && e.author in c.authors ==> Fold(c, e).authors == c.authors
    ensures !IsCustomer(e) && e.author !in c.authors ==> Fold(c, e).authors == c.authors + [e.author]
    ensures NoDuplicates(c.authors) ==> NoDuplicates(Fold(c, e).authors)
  {
  }

  /** A support reply lowers the first response to its timestamp (or sets it when there was none). */
  lemma FoldFirstResponse(c: ChatState, e: Entry)
    ensures IsCustomer(e) ==> Fold(c, e).firstResponser == c.firstResponser
    ensures !IsCustomer(e) && c.firstResponser == 0 ==> Fold(c, e).firstResponser == e.timestamp
    ensures !IsCustomer(e) && c.firstResponser != 0 ==>
              Fold(c, e).firstResponser == Min(c.firstResponser, e.timestamp)
  {
  }

  /** The link flags never reset, and turn on only through a support reply with such a link. */
  lemma FoldStickyFlags(c: ChatState, e: Entry)
    ensures c.respondedWithLink ==> Fold(c, e).respondedWithLink
    ensures c.respondedWithDoc ==> Fold(c, e).respondedWithDoc
    ensures Fold(c, e).respondedWithLink && !c.respondedWithLink ==> !IsCustomer(e) && HasLink(e)
    ensures Fold(c, e).respondedWithDoc && !c.respondedWithDoc ==> !IsCustomer(e) && HasDocLink(e)
    ensures !IsCustomer(e) && HasLink(e) ==> Fold(c, e).respondedWithLink
    ensures !IsCustomer(e) && HasDocLink(e) ==> Fold(c, e).respondedWithDoc
  {
  }

  /** The chat's identity (id, title, URL, channel) never changes. */
  lemma FoldKeepsIdentity(c: ChatState, e: Entry)
    ensures Fold(c, e).chatId == c.chatId && Fold(c, e).title == c.title
    ensures Fold(c, e).url == c.url && Fold(c, e).channel == c.channel
  {
  }

  // ---------------------------------------------------------------------------
  // The chat invariant

  /** What every stored chat satisfies once built by seeding and folding. */
  predicate Valid(c: ChatState) {
    && c.start <= c.end
    && NoDuplicates(c.authors)
    && CustomerId !in c.authors
    && 0 <= c.interactions && 0 <= c.customerInteractions
    && 0 <= c.customerWords && 0 <= c.supportWords
    && |c.authors| <= c.interactions
    && (c.authors == [] <==> c.interactions == 0)
    && (c.firstResponser != 0 ==> c.interactions > 0 && c.start <= c.firstResponser <= c.end)
    && (c.respondedWithLink ==> c.interactions > 0)
    && (c.respondedWithDoc ==> c.interactions > 0)
    && (c.customerLastResponder ==> c.customerInteractions > 0)
    && c.channel == ChannelOf(c.chatId)
  }

  /** Folding keeps the chat invariant. */
  lemma FoldValid(c: ChatState, e: Entry)
    requires Valid(c)
    ensures Valid(Fold(c, e))
  {
    FoldAuthors(c, e);
  }

  // ---------------------------------------------------------------------------
  // Arrival order does not matter

  /** The state with the arrival-order-dependent parts blanked out: author order, and, unless `withLast`, the last-responder flag. */
  function Digest(c: ChatState, withLast: bool): ChatState {
    c.(authors := [], customerLastResponder := withLast && c.customerLastResponder)
  }

  /** Two chats agree on everything but the order of their authors (and, unless `withLast`, the last-responder flag). */
  predicate Equivalent(c1: ChatState, c2: ChatState, withLast: bool) {
    Digest(c1, withLast) == Digest(c2, withLast) && (set a | a in c1.authors) == (set a | a in c2.authors)
  }

  /** Entries whose first-response bookkeeping is unambiguous: a support reply is never stamped 0, the "none" value. */
  predicate NoZeroSupportStamp(e: Entry) {
    IsCustomer(e) || e.timestamp != 0
  }

  lemma WithAuthorSet(authors: seq<string>, a: string)
    ensures (set x | x in WithAuthor(authors, a)) == (set x | x in authors) + {a}
  {
  }

  /** Equivalent chats stay equivalent when the same entry is folded into both. */
  lemma FoldCongruent(c1: ChatState, c2: ChatState, e: Entry, withLast: bool)
    requires Equivalent(c1, c2, withLast)
    ensures Equivalent(Fold(c1, e), Fold(c2, e), withLast)
  {
    WithAuthorSet(c1.authors, e.author);
    WithAuthorSet(c2.authors, e.author);
  }

  /** Two readings applied in either order give equivalent chats. */
  lemma StepCommutes(c: ChatState, r1: Reading, r2: Reading, withLast: bool)
    requires r1.customer || r1.timestamp != 0
    requires r2.customer || r2.timestamp != 0
    requires withLast ==> r1.timestamp != r2.timestamp
    ensures Equivalent(Step(Step(c, r1), r2), Step(Step(c, r2), r1), withLast)
  {
    var a := Step(Step(c, r1), r2);
    var b := Step(Step(c, r2), r1);
    WithAuthorSet(c.authors, r1.author);
    WithAuthorSet(c.authors, r2.author);
    WithAuthorSet(Step(c, r1).authors, r2.author);
    WithAuthorSet(Step(c, r2).authors, r1.author);
    assert (set x | x in a.authors) == (set x | x in b.authors);
    assert Digest(a, withLast) == Digest(b, withLast);
  }

  /**
   * Two entries folded in either order give equivalent chats. The last-responder
   * flag is included when the timestamps differ; with equal timestamps the first
   * to arrive wins it.
   */
  lemma FoldCommutes(c: ChatState, e1: Entry, e2: Entry, withLast: bool)
    requires NoZeroSupportStamp(e1) && NoZeroSupportStamp(e2)
    requires withLast ==> e1.timestamp != e2.timestamp
    ensures Equivalent(Fold(Fold(c, e1), e2), Fold(Fold(c, e2), e1), withLast)
  {
    StepCommutes(c, ReadingOf(e1), ReadingOf(e2), withLast);
  }

  /** Start and end never depend on arrival order; the last-responder flag does not either when the timestamps differ. */
  lemma SpanCommutes(c: ChatState, e1: Entry, e2: Entry)
    ensures Fold(Fold(c, e1), e2).start == Fold(Fold(c, e2), e1).start == Min(Min(c.start, e1.timestamp), e2.timestamp)
    ensures Fold(Fold(c, e1), e2).end == Fold(Fold(c, e2), e1).end == Max(Max(c.end, e1.timestamp), e2.timestamp)
    ensures e1.timestamp != e2.timestamp ==>
              Fold(Fold(c, e1), e2).customerLastResponder == Fold(Fold(c, e2), e1).customerLastResponder
  {
  }

  /** Why support replies stamped 0 are excluded: the sentinel makes the first response depend on order. */
  lemma ZeroStampBreaksOrder(c: ChatState, early: Entry, zero: Entry)
    requires c.firstResponser == 0
    requires !IsCustomer(early) && !IsCustomer(zero)
    requires early.timestamp == 5 && zero.timestamp == 0
    ensures Fold(Fold(c, early), zero).firstResponser == 0
    ensures Fold(Fold(c, zero), early).firstResponser == 5
  {
  }

  /** Equivalence is preserved through folding any common suffix. */
  lemma {:induction false} FoldAllCongruent(c1: ChatState, c2: ChatState, es: seq<Entry>, withLast: bool)
    requires Equivalent(c1, c2, withLast)
    ensures Equivalent(FoldAll(c1, es), FoldAll(c2, es), withLast)
    decreases |es|
  {
    if es != [] {
      FoldCongruent(c1, c2, es[0], withLast);
      FoldAllCongruent(Fold(c1, es[0]), Fold(c2, es[0]), es[1..], withLast);
    }
  }

  /** The order-independence requirements on a sequence of entries. */
  predicate Orderless(es: seq<Entry>, withLast: bool) {
    && (forall i :: 0 <= i < |es| ==> NoZeroSupportStamp(es[i]))
    && (withLast ==> forall i, j :: 0 <= i < j < |es| ==> es[i].timestamp != es[j].timestamp)
  }

  /** Equivalence is transitive. */
  lemma EquivalentTrans(c1: ChatState, c2: ChatState, c3: ChatState, withLast: bool)
    requires Equivalent(c1, c2, withLast) && Equivalent(c2, c3, withLast)
    ensures Equivalent(c1, c3, withLast)
  {
  }

  /** Dropping one entry keeps the order-independence requirements. */
  lemma OrderlessRemove(es: seq<Entry>, k: nat, withLast: bool)
    requires k < |es| && Orderless(es, withLast)
    ensures Orderless(es[..k] + es[k + 1..], withLast)
  {
    var rest := es[..k] + es[k + 1..];
    assert forall i :: 0 <= i < |rest| ==> rest[i] == es[if i < k then i else i + 1];
  }

  /** Folding a sequence that starts with x folds x first. */
  lemma FoldAllCons(c: ChatState, x: Entry, es: seq<Entry>)
    ensures FoldAll(c, [x] + es) == FoldAll(Fold(c, x), es)
  {
    assert ([x] + es)[1..] == es;
  }

  /** What moving x past the first entry y of p needs: the rest is still orderless, and y and x may be swapped. */
  lemma OrderlessSwapFront(p: seq<Entry>, x: Entry, q: seq<Entry>, withLast: bool)
    requires p != [] && Orderless(p + [x] + q, withLast)
    ensures Orderless(p[1..] + [x] + q, withLast)
    ensures NoZeroSupportStamp(p[0]) && NoZeroSupportStamp(x)
    ensures withLast ==> p[0].timestamp != x.timestamp
  {
    var all := p + [x] + q;
    assert all[0] == p[0] && all[|p|] == x;
    OrderlessRemove(all, 0, withLast);
    assert all[..0] + all[1..] == p[1..] + [x] + q;
  }

  /** Folding p, then x, then q is equivalent to folding x first and then p and q. */
  lemma {:induction false} FoldAllMoveToFront(c: ChatState, p: seq<Entry>, x: Entry, q: seq<Entry>, withLast: bool)
    requires Orderless(p + [x] + q, withLast)
    ensures Equivalent(FoldAll(c, p + [x] + q), FoldAll(Fold(c, x), p + q), withLast)
    decreases |p|
  {
    if p == [] {
      assert p + [x] + q == [x] + q && p + q == q;
      FoldAllCons(c, x, q);
    } else {
      var y, p' := p[0], p[1..];
      assert p + [x] + q == [y] + (p' + [x] + q);
      assert p + q == [y] + (p' + q);
      FoldAllCons(c, y, p' + [x] + q);
      FoldAllCons(Fold(c, x), y, p' + q);
      OrderlessSwapFront(p, x, q, withLast);
      // Moving x forward past the rest of p.
      FoldAllMoveToFront(Fold(c, y), p', x, q, withLast);
      // Swapping y and x at the front.
      FoldCommutes(c, y, x, withLast);
      FoldAllCongruent(Fold(Fold(c, y), x), Fold(Fold(c, x), y), p' + q, withLast);
      EquivalentTrans(FoldAll(Fold(c, y), p' + [x] + q), FoldAll(Fold(Fold(c, y), x), p' + q),
                      FoldAll(Fold(Fold(c, x), y), p' + q), withLast);
    }
  }

  /** Taking one occurrence of x out of a multiset equality. */
  lemma MultisetRemove(xs: seq<Entry>, ys: seq<Entry>, k: nat)
    requires xs != [] && k < |ys| && ys[k] == xs[0]
    requires multiset(xs) == multiset(ys)
    ensures multiset(xs[1..]) == multiset(ys[..k] + ys[k + 1..])
  {
    var x := xs[0];
    var rest := ys[..k] + ys[k + 1..];
    assert xs == [x] + xs[1..];
    assert ys == ys[..k] + [x] + ys[k + 1..];
    assert multiset(ys) == multiset(rest) + multiset{x};
    assert multiset(xs) == multiset(xs[1..]) + multiset{x};
    forall z
      ensures multiset(xs[1..])[z] == multiset(rest)[z]
    {
      assert multiset(xs)[z] == multiset(ys)[z];
    }
  }

  /**
   * Arrival order does not matter: folding any rearrangement of the same
   * entries gives the same chat, up to the order of the author list, provided
   * no support reply is stamped 0; and also the same last-responder flag when
   * all timestamps are distinct.
   */
  lemma {:induction false} FoldAllPermutation(c: ChatState, xs: seq<Entry>, ys: seq<Entry>, withLast: bool)
    requires multiset(xs) == multiset(ys)
    requires Orderless(xs, withLast) && Orderless(ys, withLast)
    ensures Equivalent(FoldAll(c, xs), FoldAll(c, ys), withLast)
    decreases |xs|
  {
    if xs == [] {
      assert |ys| == |multiset(ys)| == 0;
    } else {
      var x := xs[0];
      assert x in multiset(ys);
      var k :| 0 <= k < |ys| && ys[k] == x;
      var p, q := ys[..k], ys[k + 1..];
      assert ys == p + [x] + q;
      FoldAllMoveToFront(c, p, x, q, withLast);
      MultisetRemove(xs, ys, k);
      OrderlessRemove(xs, 0, withLast);
      assert xs[..0] + xs[1..] == xs[1..];
      OrderlessRemove(ys, k, withLast);
      FoldAllPermutation(Fold(c, x), xs[1..], p + q, withLast);
    }
  }

  /**
   * Over a whole sequence, the first response is the earliest support reply:
   * the least of the starting value (when set) and every support timestamp, or
   * 0 exactly when it started unset and no support reply came. This needs
   * support replies to have non-zero timestamps (see ZeroStampBreaksOrder).
   */
  lemma {:induction false} FirstResponseIsEarliest(c: ChatState, es: seq<Entry>)
    requires forall i :: 0 <= i < |es| ==> NoZeroSupportStamp(es[i])
    ensures var r := FoldAll(c, es).firstResponser;
            && (r == 0 <==> c.firstResponser == 0 && forall i :: 0 <= i < |es| ==> IsCustomer(es[i]))
            && (c.firstResponser != 0 ==> r <= c.firstResponser)
            && (forall i :: 0 <= i < |es| && !IsCustomer(es[i]) ==> r <= es[i].timestamp)
            && (r == c.firstResponser || exists i :: 0 <= i < |es| && !IsCustomer(es[i]) && r == es[i].timestamp)
    decreases |es|
  {
    if es != [] {
      var e, rest := es[0], es[1..];
      var c1 := Fold(c, e);
      assert forall i :: 0 <= i < |rest| ==> rest[i] == es[i + 1];
      FirstResponseIsEarliest(c1, rest);
      FoldFirstResponse(c, e);
      assert FoldAll(c, es) == FoldAll(c1, rest);
      var r := FoldAll(c1, rest).firstResponser;
      assert forall i :: 1 <= i < |es| ==> es[i] == rest[i - 1];
      if r != c.firstResponser {
        if r == c1.firstResponser {
          assert !IsCustomer(es[0]) && r == es[0].timestamp;
        } else {
          var j :| 0 <= j < |rest| && !IsCustomer(rest[j]) && r == rest[j].timestamp;
          assert !IsCustomer(es[j + 1]) && r == es[j + 1].timestamp;
        }
      }
    }
  }

  // ---------------------------------------------------------------------------
  // The mutable record

  /** A chat as the importer holds it: fields updated in place. */
  class Chat {
    var chatId: string
    var authors: seq<string>
    var title: string
    var url: string
    var start: int
    var end: int
    var firstResponser: int
    var interactions: int
    var customerInteractions: int
    var customerWords: int
    var supportWords: int
    var customerLastResponder: bool
    var channel: Channel
    var respondedWithLink: bool
    var respondedWithDoc: bool

    /** The record's fields as a value. */
    function State(): ChatState
      reads this
    {
      ChatState(chatId, authors, title, url, start, end, firstResponser,
                interactions, customerInteractions, customerWords, supportWords,
                customerLastResponder, channel, respondedWithLink, respondedWithDoc)
    }

    /** A record holding the given stored state. */
    constructor FromState(s: ChatState)
      ensures State() == s
    {
      chatId, authors, title, url := s.chatId, s.authors, s.title, s.url;
      start, end, firstResponser := s.start, s.end, s.firstResponser;
      interactions, customerInteractions := s.interactions, s.customerInteractions;
      customerWords, supportWords := s.customerWords, s.supportWords;
      customerLastResponder, channel := s.customerLastResponder, s.channel;
      respondedWithLink, respondedWithDoc := s.respondedWithLink, s.respondedWithDoc;
    }

    /** Chat.addAuthor: append `author` unless it is already listed. */
    method AddAuthor(author: string)
      modifies this`authors
      ensures author in old(authors) ==> authors == old(authors)
      ensures author !in old(authors) ==> authors == old(authors) + [author]
    {
      var i := 0;
      while i < |authors|
        invariant 0 <= i <= |authors|
        invariant author !in authors[..i]
      {
        if authors[i] == author {
          return;
        }
        i := i + 1;
      }
      assert authors[..i] == authors;
      authors := authors + [author];
    }

    /** The span update: start and end move out to `ts`; a strictly later entry decides the last-responder flag. */
    method MoveSpan(ts: int, customer: bool)
      modifies this`start, this`end, this`customerLastResponder
      ensures start == (if old(start) > ts then ts else old(start))
      ensures end == (if old(end) < ts then ts else old(end))
      ensures customerLastResponder == (if old(end) < ts then customer else old(customerLastResponder))
    {
      if start > ts {
        start := ts;
      }
      if end < ts {
        end := ts;
        customerLastResponder := customer;
      }
    }

    /** The support half of UpdateEntry. */
    method CountSupport(e: Entry)
      modifies this`supportWords, this`interactions, this`authors, this`firstResponser
      modifies this`respondedWithLink, this`respondedWithDoc
      ensures supportWords == old(supportWords) + WordCount(e)
      ensures interactions == old(interactions) + 1
      ensures authors == WithAuthor(old(authors), e.author)
      ensures firstResponser == EarlierResponse(old(firstResponser), e.timestamp)
      ensures respondedWithLink == (old(respondedWithLink) || HasLink(e))
      ensures respondedWithDoc == (old(respondedWithDoc) || HasDocLink(e))
    {
      supportWords := supportWords + WordCount(e);
      interactions := interactions + 1;
      AddAuthor(e.author);
      if firstResponser == 0 {
        firstResponser := e.timestamp;
      } else if firstResponser > e.timestamp {
        firstResponser := e.timestamp;
      }
      if !respondedWithLink {
        respondedWithLink := HasLink(e);
      }
      if !respondedWithDoc {
        respondedWithDoc := HasDocLink(e);
      }
    }

    /** Chat.UpdateEntry: fold one entry into the record. */
    method UpdateEntry(e: Entry)
      modifies this
      ensures State() == Fold(old(State()), e)
    {
      MoveSpan(e.timestamp, IsCustomer(e));
      if IsCustomer(e) {
        customerInteractions := customerInteractions + 1;
        customerWords := customerWords + WordCount(e);
      } else {
        CountSupport(e);
      }
    }
  }
}
