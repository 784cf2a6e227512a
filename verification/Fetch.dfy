/** Fetching messages page by page until the limit is reached (src/memory_cache.rs, `MessagesFetcher`). */
module Fetch {
  import opened Collections
  import opened Polls
  import opened Timeline
  import opened Replies
  import opened RoomCache

  /** What the server answers to one request; the last page is answered without a token for a next one. */
  datatype Page = Chunk(events: seq<Event>) | LoadFailed

  datatype FetchError = AssembleError | LoadError | ReceiverDropped

  // ---- Specification: which messages a fetch sends ----

  /** The events up to the first one that breaks the processing, and whether there is one. */
  function UpToBreak(room: string, events: seq<Event>): (seq<Event>, bool) {
    if events == [] then ([], false)
    else if Produce(room, events[0]).Breaks? then ([], true)
    else
      var (rest, broken) := UpToBreak(room, events[1..]);
      ([events[0]] + rest, broken)
  }

  /** The events a fetch can process, and the error that stops it after them, if any. */
  function Usable(room: string, pages: seq<Page>): (seq<Event>, Option<FetchError>) {
    if pages == [] then ([], None)
    else if pages[0].LoadFailed? then ([], Some(LoadError))
    else
      var (events, broken) := UpToBreak(room, pages[0].events);
      if broken then (events, Some(AssembleError))
      else
        var (rest, stop) := Usable(room, pages[1..]);
        (events + rest, stop)
  }

  function AllEvents(pages: seq<Page>): seq<Event> {
    if pages == [] then []
    else (if pages[0].Chunk? then pages[0].events else []) + AllEvents(pages[1..])
  }

  /** The first `n` events of a chunk do not break the processing. */
  ghost predicate Processed(room: string, chunk: seq<Event>, n: nat) {
    && n <= |chunk|
    && UpToBreak(room, chunk) == (chunk[..n] + UpToBreak(room, chunk[n..]).0, UpToBreak(room, chunk[n..]).1)
  }

  lemma ProcessedNone(room: string, chunk: seq<Event>)
    ensures Processed(room, chunk, 0)
  {
    assert chunk[0..] == chunk && chunk[..0] + UpToBreak(room, chunk).0 == UpToBreak(room, chunk).0;
  }

  lemma ProcessedNext(room: string, chunk: seq<Event>, n: nat)
    requires n < |chunk| && Processed(room, chunk, n) && !Produce(room, chunk[n]).Breaks?
    ensures Processed(room, chunk, n + 1)
  {
    assert chunk[n..][1..] == chunk[n + 1..];
    assert chunk[..n + 1] == chunk[..n] + [chunk[n]];
    var rest := UpToBreak(room, chunk[n + 1..]).0;
    assert chunk[..n] + ([chunk[n]] + rest) == chunk[..n + 1] + rest;
  }

  lemma UniqueSubset(all: seq<Event>, some: seq<Event>)
    requires RelationIdsUnique(all) && forall e :: e in some ==> e in all
    ensures RelationIdsUnique(some)
  {
  }

  /** Where in the events the messages are, in order. */
  function Positions(room: string, events: seq<Event>): (r: seq<nat>)
    ensures forall p :: p in r ==> p < |events| && Produce(room, events[p]).Produces?
  {
    if events == [] then [] else
      assert forall p :: 0 <= p < |events| - 1 ==> Front(events)[p] == events[p];
      Positions(room, Front(events)) + if Produce(room, Last(events)).Produces? then [|events| - 1] else []
  }

  /** Each message sent is the next producing event, rendered with the relations seen before it. */
  ghost predicate Explains(room: string, seen: seq<Event>, events: seq<Event>, sent: seq<Message>) {
    var ps := Positions(room, events);
    && |sent| <= |ps|
    && forall i :: 0 <= i < |sent| ==>
         ps[i] in ps && Rendered(seen + events[..ps[i]], Produce(room, events[ps[i]]).base, sent[i])
  }

  /** The positions are those of all events that give a message, in order. */
  lemma {:induction false} PositionsAre(room: string, events: seq<Event>)
    ensures forall p :: p in Positions(room, events) <==> 0 <= p < |events| && IsMessage(events[p])
    ensures Ascending(Positions(room, events))
  {
    if events == [] {
    } else {
      var ps, n := Positions(room, Front(events)), |events| - 1;
      PositionsAre(room, Front(events));
      ProducesIff(room, events[n]);
      assert forall p :: 0 <= p < n ==> Front(events)[p] == events[p];
      PositionsNext(ps, if IsMessage(events[n]) then [n] else [], events, n);
    }
  }

  /** One more position, if there is one. */
  lemma PositionsNext(ps: seq<nat>, more: seq<nat>, events: seq<Event>, n: nat)
    requires |events| == n + 1 && Ascending(ps) && more == if IsMessage(events[n]) then [n] else []
    requires forall p :: p in ps <==> 0 <= p < n && IsMessage(events[p])
    ensures forall p :: p in ps + more <==> 0 <= p < |events| && IsMessage(events[p])
    ensures Ascending(ps + more)
  {
    assert forall i :: 0 <= i < |ps| ==> ps[i] in ps;
  }

  /** Each message tells what its event and the events seen before that one say. */
  lemma ExplainedTells(room: string, seen: seq<Event>, events: seq<Event>, sent: seq<Message>, i: nat)
    requires Explains(room, seen, events, sent) && i < |sent|
    ensures i < |Positions(room, events)| && Positions(room, events)[i] < |events|
    ensures var p := Positions(room, events)[i]; Tells(room, seen + events[..p], events[p], sent[i])
  {
    var p := Positions(room, events)[i];
    assert p in Positions(room, events);
    MessageTells(room, seen + events[..p], events[p], sent[i]);
  }

  lemma {:induction false} PositionsConcat(room: string, a: seq<Event>, b: seq<Event>)
    ensures |Positions(room, a)| <= |Positions(room, a + b)|
    ensures Positions(room, a + b)[..|Positions(room, a)|] == Positions(room, a)
    decreases |b|
  {
    if b == [] {
      assert a + b == a;
    } else {
      PositionsConcat(room, a, Front(b));
      assert Front(a + b) == a + Front(b);
    }
  }

  lemma ExplainsMore(room: string, seen: seq<Event>, a: seq<Event>, b: seq<Event>, sent: seq<Message>)
    requires Explains(room, seen, a, sent)
    ensures Explains(room, seen, a + b, sent)
  {
    PositionsConcat(room, a, b);
    var ps, all := Positions(room, a), Positions(room, a + b);
    forall i | 0 <= i < |sent|
      ensures all[i] in all && Rendered(seen + (a + b)[..all[i]], Produce(room, (a + b)[all[i]]).base, sent[i])
    {
      assert all[i] == all[..|ps|][i] == ps[i] && ps[i] in ps;
      assert (a + b)[..all[i]] == a[..ps[i]];
    }
  }

  lemma ExplainsNext(room: string, seen: seq<Event>, events: seq<Event>, sent: seq<Message>, e: Event, m: Message)
    requires Explains(room, seen, events, sent) && |sent| == |Positions(room, events)|
    requires Produce(room, e).Produces? && Rendered(seen + events, Produce(room, e).base, m)
    ensures Explains(room, seen, events + [e], sent + [m])
    ensures |Positions(room, events + [e])| == |sent| + 1
  {
    ExplainsMore(room, seen, events, [e], sent);
    var all := Positions(room, events + [e]);
    assert Front(events + [e]) == events && Last(events + [e]) == e;
    assert all == Positions(room, events) + [|events|];
    assert (events + [e])[..|events|] == events;
  }

  /** How a run that processed `done` ended. */
  ghost predicate Ended(
    room: string, pages: seq<Page>, limit: nat, takes: nat, done: seq<Event>, sent: nat, r: Result<(), FetchError>)
  {
    var (usable, stop) := Usable(room, pages);
    && done <= usable
    && match r
       case Ok(_) => sent == limit || (done == usable && stop == None)
       case Err(ReceiverDropped) =>
         && sent == takes && |done| < |usable| && Produce(room, usable[|done|]).Produces?
       case Err(e) => done == usable && stop == Some(e) && sent < limit
  }

  /** What is left to use of all pages is what was processed and what the remaining pages hold. */
  ghost predicate StillUsable(room: string, all: seq<Page>, done: seq<Event>, pages: seq<Page>) {
    Usable(room, all) == (done + Usable(room, pages).0, Usable(room, pages).1)
  }

  /** The events of all pages are those processed and those of the remaining pages. */
  ghost predicate InTimeline(all: seq<Page>, done: seq<Event>, pages: seq<Page>) {
    AllEvents(all) == done + AllEvents(pages)
  }

  /** How many events the cache has seen beyond those processed: the one that broke, or found no receiver. */
  function Overrun<T>(r: Result<T, FetchError>): nat {
    if r.Err? && r.error != LoadError then 1 else 0
  }

  lemma EndReached(room: string, all: seq<Page>, done: seq<Event>)
    requires StillUsable(room, all, done, [])
    ensures Usable(room, all) == (done, None)
  {
    assert done + [] == done;
  }

  lemma PrefixOfTimeline(done: seq<Event>, all: seq<Event>)
    ensures done <= all ==> all[..|done|] == done
  {
  }

  lemma ChunkInTimeline(all: seq<Page>, done: seq<Event>, pages: seq<Page>, chunk: seq<Event>, n: nat)
    requires pages != [] && pages[0] == Chunk(chunk) && InTimeline(all, done, pages) && n <= |chunk|
    ensures done + chunk[..n] <= AllEvents(all)
    ensures n < |chunk| ==>
      |done| + n + 1 <= |AllEvents(all)| && AllEvents(all)[..|done| + n + 1] == done + chunk[..n + 1]
    ensures n == |chunk| ==> InTimeline(all, done + chunk[..n], pages[1..])
  {
    var rest := AllEvents(pages[1..]);
    assert AllEvents(pages) == chunk + rest;
    assert done + (chunk + rest) == (done + chunk[..n]) + (chunk[n..] + rest);
    if n < |chunk| {
      assert done + (chunk + rest) == (done + chunk[..n + 1]) + (chunk[n + 1..] + rest);
    } else {
      assert chunk[..n] == chunk;
    }
  }

  /** What is usable after the first `n` events of the next chunk: the rest of it, and of the pages unless it breaks. */
  lemma UsableSplit(room: string, all: seq<Page>, done: seq<Event>, pages: seq<Page>, chunk: seq<Event>, n: nat)
    requires pages != [] && pages[0] == Chunk(chunk) && StillUsable(room, all, done, pages) && Processed(room, chunk, n)
    ensures var (left, broken) := UpToBreak(room, chunk[n..]);
            var (rest, stop) := Usable(room, pages[1..]);
            Usable(room, all) == if broken then (done + chunk[..n] + left, Some(AssembleError))
                                 else (done + chunk[..n] + (left + rest), stop)
  {
    var left, rest := UpToBreak(room, chunk[n..]).0, Usable(room, pages[1..]).0;
    assert done + (chunk[..n] + left) == done + chunk[..n] + left;
    assert done + (chunk[..n] + left + rest) == done + chunk[..n] + (left + rest);
  }

  lemma UsableChunk(room: string, all: seq<Page>, done: seq<Event>, pages: seq<Page>, chunk: seq<Event>, n: nat)
    requires pages != [] && pages[0] == Chunk(chunk) && StillUsable(room, all, done, pages) && Processed(room, chunk, n)
    ensures var (usable, stop) := Usable(room, all);
            var now := done + chunk[..n];
            && now <= usable
            && (n == |chunk| ==> StillUsable(room, all, now, pages[1..]))
            && (n < |chunk| && !Produce(room, chunk[n]).Breaks? ==> |now| < |usable| && usable[|now|] == chunk[n])
            && (n < |chunk| && Produce(room, chunk[n]).Breaks? ==> usable == now && stop == Some(AssembleError))
  {
    UsableSplit(room, all, done, pages, chunk, n);
    var left, rest := UpToBreak(room, chunk[n..]).0, Usable(room, pages[1..]).0;
    if n < |chunk| {
      assert chunk[n..][0] == chunk[n];
    } else {
      assert chunk[n..] == [] && left + rest == rest;
    }
  }

  lemma NothingDone(room: string, all: seq<Page>, seen: seq<Event>)
    requires RelationIdsUnique(seen + AllEvents(all))
    ensures StillUsable(room, all, [], all) && InTimeline(all, [], all)
    ensures RelationIdsUnique(seen + [] + AllEvents(all))
  {
    NothingBefore(Usable(room, all).0);
    NothingBefore(AllEvents(all));
    assert seen + [] == seen;
  }

  lemma NothingBefore<T>(s: seq<T>)
    ensures [] + s == s
  {
  }

  lemma ChunkPrefixUnique(seen: seq<Event>, done: seq<Event>, chunk: seq<Event>, k: nat)
    requires RelationIdsUnique(seen + done + chunk) && k < |chunk|
    ensures RelationIdsUnique(seen + (done + chunk[..k]) + [chunk[k]])
    ensures done + chunk[..k] + [chunk[k]] == done + chunk[..k + 1]
  {
    UniqueSubset(seen + done + chunk, seen + (done + chunk[..k]) + [chunk[k]]);
  }

  lemma UniqueLater(seen: seq<Event>, done: seq<Event>, pages: seq<Page>, chunk: seq<Event>, n: nat)
    requires pages != [] && pages[0] == Chunk(chunk) && n <= |chunk|
    requires RelationIdsUnique(seen + done + AllEvents(pages))
    ensures RelationIdsUnique(seen + done + chunk)
    ensures RelationIdsUnique(seen + (done + chunk[..n]) + AllEvents(pages[1..]))
  {
    assert AllEvents(pages) == chunk + AllEvents(pages[1..]);
    UniqueSubset(seen + done + AllEvents(pages), seen + done + chunk);
    UniqueSubset(seen + done + AllEvents(pages), seen + (done + chunk[..n]) + AllEvents(pages[1..]));
  }

  lemma ChunkStopped(
    room: string, all: seq<Page>, done: seq<Event>, pages: seq<Page>, chunk: seq<Event>, n: nat,
    limit: nat, takes: nat, sent: nat, error: FetchError)
    requires pages != [] && pages[0] == Chunk(chunk) && StillUsable(room, all, done, pages) && Processed(room, chunk, n)
    requires n < |chunk| && sent < limit
    requires (error == AssembleError && Produce(room, chunk[n]).Breaks?)
             || (error == ReceiverDropped && sent == takes && Produce(room, chunk[n]).Produces?)
    ensures Ended(room, all, limit, takes, done + chunk[..n], sent, Err(error))
  {
    UsableChunk(room, all, done, pages, chunk, n);
  }

  // ---- The fetcher ----

  class MessagesFetcher {
    const cache: CachedRoom
    const limit: nat
    /** How many items the receiver takes before it is dropped. */
    const takes: nat
    var pages: seq<Page>
    var sent: seq<Message>
    var delivered: Option<FetchError>
    var retrieved: nat

    constructor (cache: CachedRoom, limit: nat, takes: nat, pages: seq<Page>)
      ensures this.cache == cache && this.limit == limit && this.takes == takes && this.pages == pages
      ensures sent == [] && delivered == None && retrieved == 0
    {
      this.cache, this.limit, this.takes, this.pages := cache, limit, takes, pages;
      sent, delivered, retrieved := [], None, 0;
    }

    method LoadPage() returns (r: Result<(seq<Event>, bool), FetchError>)
      requires pages != []
      modifies this`pages
      ensures pages == old(pages)[1..]
      ensures r == match old(pages)[0]
                   case Chunk(events) => Ok((events, pages == []))
                   case LoadFailed => Err(LoadError)
    {
      var page := pages[0];
      pages := pages[1..];
      match page
      case Chunk(events) => r := Ok((events, pages == []));
      case LoadFailed => r := Err(LoadError);
    }

    method SendFinishedMessage(m: Message) returns (r: Result<(), FetchError>)
      modifies this`sent, this`retrieved
      ensures if |old(sent)| < takes then r == Ok(()) && sent == old(sent) + [m] && retrieved == old(retrieved) + 1
              else r == Err(ReceiverDropped) && sent == old(sent) && retrieved == old(retrieved)
    {
      if |sent| >= takes {
        return Err(ReceiverDropped);
      }
      sent := sent + [m];
      retrieved := retrieved + 1;
      return Ok(());
    }

    /** `done` was processed and every message in it sent. */
    ghost predicate Progress(seen: seq<Event>, done: seq<Event>)
      reads this, cache
    {
      && cache.Valid() && cache.seen == seen + done
      && Explains(cache.roomId, seen, done, sent) && |sent| == |Positions(cache.roomId, done)|
      && retrieved == |sent| <= takes && delivered == None
    }

    /** The loop stopped at `next`: the messages of `done` are out, but not what `next` asks for. */
    ghost predicate StoppedAt(seen: seq<Event>, done: seq<Event>, next: Event, error: FetchError)
      reads this, cache
    {
      && Explains(cache.roomId, seen, done, sent) && |sent| == |Positions(cache.roomId, done)|
      && retrieved == |sent| < limit && delivered == None
      && ((error == AssembleError && |sent| <= takes && Produce(cache.roomId, next).Breaks?)
          || (error == ReceiverDropped && |sent| == takes && Produce(cache.roomId, next).Produces?))
    }

    /** The cache has seen the events processed, and the one that stopped the run if it was an event. */
    ghost predicate HasSeen<T>(seen: seq<Event>, all: seq<Event>, done: seq<Event>, r: Result<T, FetchError>)
      reads this, cache
    {
      && cache.Valid() && done <= all && |done| + Overrun(r) <= |all|
      && cache.seen == seen + all[..|done| + Overrun(r)]
    }

    method ProcessEvent(e: Event, ghost seen: seq<Event>, ghost done: seq<Event>) returns (r: Result<(), FetchError>)
      requires Progress(seen, done) && retrieved < limit && RelationIdsUnique(seen + done + [e])
      modifies this`sent, this`retrieved, cache
      ensures r.Ok? ==> Progress(seen, done + [e]) && retrieved <= limit && !Produce(cache.roomId, e).Breaks?
      ensures r.Err? ==> StoppedAt(seen, done, e, r.error)
      ensures cache.Valid() && cache.seen == seen + (done + [e])
    {
      var action := cache.ProcessTimelineEvent(e);
      assert seen + done + [e] == seen + (done + [e]);
      if action.Err? {
        return Err(AssembleError);
      }
      if action.value.Some? && action.value.value.MessageAction? {
        var m := action.value.value.message;
        ExplainsNext(cache.roomId, seen, done, sent, e, m);
        r := SendFinishedMessage(m);
      } else {
        ExplainsMore(cache.roomId, seen, done, [e], sent);
        assert Front(done + [e]) == done && Last(done + [e]) == e;
        r := Ok(());
      }
    }

    /** One turn of the loop over a chunk. */
    method ProcessNextEvent(chunk: seq<Event>, k: nat, ghost seen: seq<Event>, ghost done: seq<Event>)
      returns (r: Result<(), FetchError>)
      requires k < |chunk| && Processed(cache.roomId, chunk, k)
      requires Progress(seen, done + chunk[..k]) && retrieved < limit && RelationIdsUnique(seen + done + chunk)
      modifies this`sent, this`retrieved, cache
      ensures r.Ok? ==> Processed(cache.roomId, chunk, k + 1)
      ensures r.Ok? ==> Progress(seen, done + chunk[..k + 1]) && retrieved <= limit
      ensures r.Err? ==> StoppedAt(seen, done + chunk[..k], chunk[k], r.error)
      ensures cache.Valid() && cache.seen == seen + (done + chunk[..k + 1])
    {
      ChunkPrefixUnique(seen, done, chunk, k);
      r := ProcessEvent(chunk[k], seen, done + chunk[..k]);
      if r.Ok? {
        ProcessedNext(cache.roomId, chunk, k);
      }
    }

    method ProcessEventChunk(chunk: seq<Event>, ghost seen: seq<Event>, ghost done: seq<Event>)
      returns (r: Result<(), FetchError>, ghost n: nat)
      requires Progress(seen, done) && retrieved < limit && RelationIdsUnique(seen + done + chunk)
      modifies this`sent, this`retrieved, cache
      ensures Processed(cache.roomId, chunk, n)
      ensures r.Ok? ==> Progress(seen, done + chunk[..n]) && retrieved <= limit && (n == |chunk| || retrieved == limit)
      ensures r.Err? ==> n < |chunk| && StoppedAt(seen, done + chunk[..n], chunk[n], r.error)
      ensures r.Err? ==> cache.seen == seen + (done + chunk[..n + 1])
      ensures cache.Valid()
    {
      n := 0;
      ProcessedNone(cache.roomId, chunk);
      assert done + chunk[..0] == done;
      for k := 0 to |chunk|
        invariant n == k && Processed(cache.roomId, chunk, k)
        invariant Progress(seen, done + chunk[..k]) && retrieved < limit
      {
        r := ProcessNextEvent(chunk, k, seen, done);
        if r.Err? {
          return;
        }
        n := k + 1;
        if retrieved == limit {
          return;
        }
      }
      r := Ok(());
    }

    /** What the loop keeps: `done` was processed, and the remaining pages hold the rest. */
    ghost predicate Looping(seen: seq<Event>, all: seq<Page>, done: seq<Event>)
      reads this, cache
    {
      && Progress(seen, done) && retrieved <= limit
      && done <= Usable(cache.roomId, all).0 && done <= AllEvents(all)
      && (retrieved < limit ==>
            && StillUsable(cache.roomId, all, done, pages) && InTimeline(all, done, pages)
            && RelationIdsUnique(seen + done + AllEvents(pages)))
    }

    /** The run ended with an error after `done`. */
    ghost predicate Failed(seen: seq<Event>, all: seq<Page>, done: seq<Event>, error: FetchError)
      reads this, cache
    {
      && delivered == None && Explains(cache.roomId, seen, done, sent)
      && retrieved == |sent| == |Positions(cache.roomId, done)| <= Min(limit, takes)
      && Ended(cache.roomId, all, limit, takes, done, |sent|, Err(error))
      && HasSeen<()>(seen, AllEvents(all), done, Err(error))
    }

    /** One turn of the loop: `now` is what has been processed after it. */
    method ProcessPage(ghost seen: seq<Event>, ghost all: seq<Page>, ghost done: seq<Event>)
      returns (r: Result<bool, FetchError>, ghost now: seq<Event>)
      requires Looping(seen, all, done) && retrieved < limit && pages != []
      modifies this`pages, this`sent, this`retrieved, cache
      ensures pages == old(pages)[1..]
      ensures r.Ok? ==> Looping(seen, all, now) && (r.value <==> pages == [])
      ensures r.Err? ==> Failed(seen, all, now, r.error)
    {
      ghost var rest := pages;
      now := done;
      var page := LoadPage();
      if page.Err? {
        assert Usable(cache.roomId, rest) == ([], Some(LoadError));
        assert done + [] == done;
        PrefixOfTimeline(done, AllEvents(all));
        return Err(page.error), done;
      }
      var (chunk, reachedEnd) := page.value;
      var processed;
      processed, now := ProcessLoaded(chunk, seen, all, done, rest);
      if processed.Err? {
        return Err(processed.error), now;
      }
      r := Ok(reachedEnd);
    }

    /** The rest of the turn once a page is loaded; `rest` are the pages with this one. */
    method ProcessLoaded(
      chunk: seq<Event>, ghost seen: seq<Event>, ghost all: seq<Page>, ghost done: seq<Event>, ghost rest: seq<Page>)
      returns (r: Result<(), FetchError>, ghost now: seq<Event>)
      requires rest != [] && rest[0] == Chunk(chunk) && pages == rest[1..]
      requires Progress(seen, done) && retrieved < limit
      requires StillUsable(cache.roomId, all, done, rest) && InTimeline(all, done, rest)
      requires RelationIdsUnique(seen + done + AllEvents(rest))
      modifies this`sent, this`retrieved, cache
      ensures r.Ok? ==> Looping(seen, all, now)
      ensures r.Err? ==> Failed(seen, all, now, r.error)
    {
      UniqueLater(seen, done, rest, chunk, |chunk|);
      ghost var n;
      r, n := ProcessEventChunk(chunk, seen, done);
      now := done + chunk[..n];
      ChunkInTimeline(all, done, rest, chunk, n);
      UniqueLater(seen, done, rest, chunk, n);
      if r.Err? {
        ChunkStopped(cache.roomId, all, done, rest, chunk, n, limit, takes, |sent|, r.error);
      } else {
        UsableChunk(cache.roomId, all, done, rest, chunk, n);
      }
    }

    /** The loop, up to the limit, the end or an error. */
    method FetchPages(ghost seen: seq<Event>) returns (r: Result<(), FetchError>, ghost done: seq<Event>)
      requires Progress(seen, []) && retrieved == 0 < limit && pages != []
      requires RelationIdsUnique(seen + AllEvents(pages))
      modifies this`pages, this`sent, this`retrieved, cache
      ensures r.Ok? ==> Looping(seen, old(pages), done) && (retrieved < limit ==> pages == [])
      ensures r.Err? ==> Failed(seen, old(pages), done, r.error)
    {
      done := [];
      ghost var all := pages;
      NothingDone(cache.roomId, all, seen);
      while retrieved < limit
        invariant Looping(seen, all, done) && (retrieved < limit ==> pages != [])
        decreases |pages|
      {
        var page;
        page, done := ProcessPage(seen, all, done);
        if page.Err? {
          return Err(page.error), done;
        }
        if page.value {
          break;
        }
      }
      r := Ok(());
    }

    /**
     * Pages are fetched until the limit, the end or an error. `done` is what was processed: a prefix of the
     * usable events, and all of them unless the limit or the receiver ended the run.
     */
    method FetchUntilCompletion(ghost seen: seq<Event>) returns (r: Result<(), FetchError>, ghost done: seq<Event>)
      requires Progress(seen, []) && retrieved == 0 < limit && pages != []
      requires RelationIdsUnique(seen + AllEvents(pages))
      modifies this`pages, this`sent, this`retrieved, cache
      ensures delivered == None && Explains(cache.roomId, seen, done, sent)
      ensures retrieved == |sent| == |Positions(cache.roomId, done)| <= Min(limit, takes)
      ensures Ended(cache.roomId, old(pages), limit, takes, done, |sent|, r)
      ensures HasSeen(seen, AllEvents(old(pages)), done, r)
    {
      r, done := FetchPages(seen);
      if r.Ok? {
        PrefixOfTimeline(done, AllEvents(old(pages)));
        if retrieved < limit {
          EndReached(cache.roomId, old(pages), done);
        }
      }
    }

    /** A whole fetch. Afterwards the cache mirrors what it has seen, ready for the next operation on the room. */
    method Run(ghost seen: seq<Event>) returns (ghost done: seq<Event>, ghost result: Result<(), FetchError>)
      requires Progress(seen, []) && retrieved == 0 && pages != []
      requires RelationIdsUnique(seen + AllEvents(pages))
      modifies this, cache
      ensures Explains(cache.roomId, seen, Usable(cache.roomId, old(pages)).0, sent)
      ensures retrieved == |sent| ==
        Min(Min(limit, takes), |Positions(cache.roomId, Usable(cache.roomId, old(pages)).0)|)
      ensures delivered == Delivered(cache.roomId, old(pages), limit, takes)
      ensures Ended(cache.roomId, old(pages), limit, takes, done, |sent|, result)
      ensures HasSeen(seen, AllEvents(old(pages)), done, result)
    {
      done, result := [], Ok(());
      ghost var all := pages;
      if limit == 0 {
        return;
      }
      var fetched;
      fetched, done := FetchUntilCompletion(seen);
      result := fetched;
      ExplainsUsable(cache.roomId, seen, all, done, sent);
      RunCount(cache.roomId, all, limit, takes, done, |sent|, result);
      if fetched.Err? && |sent| < takes {
        delivered := Some(fetched.error);
      }
    }
  }

  /** The error item sent at the end: only if the messages before it neither reach the limit nor use up the receiver. */
  function Delivered(room: string, pages: seq<Page>, limit: nat, takes: nat): Option<FetchError> {
    var (usable, stop) := Usable(room, pages);
    if |Positions(room, usable)| < limit && |Positions(room, usable)| < takes then stop else None
  }

  lemma ExplainsUsable(room: string, seen: seq<Event>, pages: seq<Page>, done: seq<Event>, sent: seq<Message>)
    requires Explains(room, seen, done, sent) && done <= Usable(room, pages).0
    ensures Explains(room, seen, Usable(room, pages).0, sent)
  {
    var usable := Usable(room, pages).0;
    assert usable == done + usable[|done|..];
    ExplainsMore(room, seen, done, usable[|done|..], sent);
  }

  lemma PositionsOneMore(room: string, done: seq<Event>, e: Event)
    ensures |Positions(room, done + [e])| == |Positions(room, done)| + if Produce(room, e).Produces? then 1 else 0
  {
    assert Front(done + [e]) == done && Last(done + [e]) == e;
  }

  lemma PositionsOfPrefix(room: string, done: seq<Event>, all: seq<Event>)
    requires done <= all
    ensures |Positions(room, done)| <= |Positions(room, all)|
  {
    assert all == done + all[|done|..];
    PositionsConcat(room, done, all[|done|..]);
  }

  lemma RunCount(
    room: string, pages: seq<Page>, limit: nat, takes: nat, done: seq<Event>, sent: nat, r: Result<(), FetchError>)
    requires Ended(room, pages, limit, takes, done, sent, r)
    requires sent == |Positions(room, done)| <= Min(limit, takes)
    ensures sent == Min(Min(limit, takes), |Positions(room, Usable(room, pages).0)|)
    ensures Delivered(room, pages, limit, takes) == if r.Err? && sent < takes then Some(r.error) else None
  {
    var usable := Usable(room, pages).0;
    PositionsOfPrefix(room, done, usable);
    if r == Err(ReceiverDropped) {
      PositionsOneMore(room, done, usable[|done|]);
      PositionsOfPrefix(room, done + [usable[|done|]], usable);
    }
  }

  // ---- What the caller can rely on ----

  lemma {:induction false} UpToBreakConcat(room: string, a: seq<Event>, b: seq<Event>)
    ensures var (events, broken) := UpToBreak(room, a);
            UpToBreak(room, a + b) ==
            if broken then (events, true) else (a + UpToBreak(room, b).0, UpToBreak(room, b).1)
    decreases |a|
  {
    if a == [] {
      assert a + b == b;
      assert a + UpToBreak(room, b).0 == UpToBreak(room, b).0;
    } else {
      UpToBreakConcat(room, a[1..], b);
      assert (a + b)[1..] == a[1..] + b;
      var rest := UpToBreak(room, b).0;
      assert [a[0]] + (a[1..] + rest) == a + rest;
    }
  }

  lemma UpToBreakNext(room: string, a: seq<Event>, x: Event)
    requires UpToBreak(room, a) == (a, false)
    ensures UpToBreak(room, a + [x]) == if Produce(room, x).Breaks? then (a, true) else (a + [x], false)
  {
    UpToBreakConcat(room, a, [x]);
    assert [x][1..] == [] && UpToBreak(room, []) == ([], false);
    assert a + [] == a && a + ([x] + []) == a + [x];
  }

  lemma {:induction false} UpToBreakPrefix(room: string, a: seq<Event>)
    ensures UpToBreak(room, a).0 <= a && (!UpToBreak(room, a).1 ==> UpToBreak(room, a).0 == a)
  {
    if a == [] {
    } else {
      UpToBreakPrefix(room, a[1..]);
    }
  }

  /** Where the pages are cut does not matter: the usable events depend on the timeline alone. */
  lemma {:induction false} ChunkBoundariesIrrelevant(room: string, pages: seq<Page>)
    requires forall p :: p in pages ==> p.Chunk?
    ensures var (events, broken) := UpToBreak(room, AllEvents(pages));
            Usable(room, pages) == (events, if broken then Some(AssembleError) else None)
  {
    if pages == [] {
    } else {
      var chunk := pages[0].events;
      ChunkBoundariesIrrelevant(room, pages[1..]);
      UpToBreakConcat(room, chunk, AllEvents(pages[1..]));
      UpToBreakPrefix(room, chunk);
    }
  }

  /** Every new poll among the events has a kind the client knows. */
  ghost predicate PollKindsKnown(events: seq<Event>) {
    forall e :: e in events && e.body.NewPoll? ==> !e.body.start.kind.Custom?
  }

  lemma {:induction false} UnbrokenIff(room: string, events: seq<Event>)
    ensures !UpToBreak(room, events).1 <==> PollKindsKnown(events)
    decreases |events|
  {
    if events == [] {
    } else {
      UnbrokenIff(room, events[1..]);
      assert events == [events[0]] + events[1..];
      assert Produce(room, events[0]).Breaks? <==>
             events[0].body.NewPoll? && !Convertible(events[0].body.start);
    }
  }

  /** Without failing requests, a fetch can use the whole timeline exactly if it knows the kind of every poll in it. */
  lemma WholeTimelineUsableIff(room: string, pages: seq<Page>)
    requires forall p :: p in pages ==> p.Chunk?
    ensures Usable(room, pages) == (AllEvents(pages), None) <==> PollKindsKnown(AllEvents(pages))
  {
    ChunkBoundariesIrrelevant(room, pages);
    UpToBreakPrefix(room, AllEvents(pages));
    UnbrokenIff(room, AllEvents(pages));
  }

  /** The newest poll of unknown kind hides every older message from the fetch, however large the limit. */
  lemma UnknownPollHidesOlder(room: string, pages: seq<Page>, newer: seq<Event>, poll: Event, older: seq<Event>)
    requires forall p :: p in pages ==> p.Chunk?
    requires AllEvents(pages) == newer + [poll] + older
    requires PollKindsKnown(newer) && poll.body.NewPoll? && !Convertible(poll.body.start)
    ensures Usable(room, pages) == (newer, Some(AssembleError))
  {
    ChunkBoundariesIrrelevant(room, pages);
    UnbrokenIff(room, newer);
    assert newer + [poll] + older == newer + ([poll] + older);
    UpToBreakConcat(room, newer, [poll] + older);
    assert newer + [] == newer;
  }

  /** A page that cannot be loaded ends the fetch after the pages before it, unless a poll among them did already. */
  lemma {:induction false} FailedPageEnds(room: string, loaded: seq<Page>, rest: seq<Page>)
    requires forall p :: p in loaded ==> p.Chunk?
    ensures Usable(room, loaded + ([LoadFailed] + rest)) ==
            if PollKindsKnown(AllEvents(loaded)) then (AllEvents(loaded), Some(LoadError)) else Usable(room, loaded)
    decreases |loaded|
  {
    var pages := loaded + ([LoadFailed] + rest);
    if loaded == [] {
      assert pages[0] == LoadFailed;
    } else {
      var chunk := loaded[0].events;
      assert pages[1..] == loaded[1..] + ([LoadFailed] + rest) && pages[0] == loaded[0];
      FailedPageEnds(room, loaded[1..], rest);
      UnbrokenIff(room, chunk);
      UpToBreakPrefix(room, chunk);
      assert PollKindsKnown(AllEvents(loaded)) <==> PollKindsKnown(chunk) && PollKindsKnown(AllEvents(loaded[1..]));
    }
  }

  /** So the application is told of an error exactly if the limit and the receiver leave room for it. */
  lemma ErrorDeliveredIff(room: string, pages: seq<Page>, limit: nat, takes: nat)
    requires forall p :: p in pages ==> p.Chunk?
    ensures Delivered(room, pages, limit, takes) ==
            if !PollKindsKnown(AllEvents(pages))
               && |Positions(room, UpToBreak(room, AllEvents(pages)).0)| < Min(limit, takes)
            then Some(AssembleError) else None
  {
    ChunkBoundariesIrrelevant(room, pages);
    UnbrokenIff(room, AllEvents(pages));
  }

  lemma ExplainsAt(room: string, seen: seq<Event>, events: seq<Event>, sent: seq<Message>, i: nat) returns (p: nat)
    requires Explains(room, seen, events, sent) && i < |sent|
    ensures i < |Positions(room, events)| && p == Positions(room, events)[i] && p < |events|
    ensures Produce(room, events[p]).Produces? && Produce(room, events[p]).base.messageId == events[p].id
    ensures Rendered(seen + events[..p], Produce(room, events[p]).base, sent[i])
  {
    p := Positions(room, events)[i];
  }

  /** Two fetches over the same events send the same messages, up to the order of reactions. */
  lemma SameMessages(room: string, seen: seq<Event>, events: seq<Event>, a: seq<Message>, b: seq<Message>, i: nat)
    requires Explains(room, seen, events, a) && Explains(room, seen, events, b) && i < |a| && i < |b|
    requires var p := Positions(room, events)[i];
             p < |events| && DistinctTimes(RelationsOf(seen + events[..p], events[p].id))
    ensures SameUpToReactionOrder(a[i], b[i])
  {
    var p := ExplainsAt(room, seen, events, a, i);
    var q := ExplainsAt(room, seen, events, b, i);
    RenderedTwice(seen + events[..p], Produce(room, events[p]).base, a[i], b[i]);
  }

  lemma RenderedTwice(seen: seq<Event>, base: Message, m: Message, n: Message)
    requires Rendered(seen, base, m) && Rendered(seen, base, n) && DistinctTimes(RelationsOf(seen, base.messageId))
    ensures SameUpToReactionOrder(m, n)
  {
    RenderingDetermined(RelationsOf(seen, base.messageId), base, m, n);
  }

  lemma TailIrrelevant(seen: seq<Event>, events: seq<Event>, p: nat, id: string)
    requires p <= |events| && forall q :: p <= q < |events| ==> !RelatesTo(events[q], id)
    ensures RelationsOf(seen + events, id) == RelationsOf(seen + events[..p], id)
  {
    assert seen + events == (seen + events[..p]) + events[p..];
    forall e | e in events[p..]
      ensures !RelatesTo(e, id)
    {
      var q :| 0 <= q < |events| - p && events[p..][q] == e;
      assert events[p + q] == e;
    }
    LaterEventsIrrelevant(seen + events[..p], events[p..], id);
  }

  lemma SameRelationsSameRendering(s: seq<Event>, t: seq<Event>, base: Message, m: Message)
    requires RelationsOf(s, base.messageId) == RelationsOf(t, base.messageId) && Rendered(s, base, m)
    ensures Rendered(t, base, m)
  {
  }

  /** If every relation is newer than its target, a message carries all its relations in the timeline. */
  lemma CarriesAllRelations(room: string, seen: seq<Event>, events: seq<Event>, sent: seq<Message>, i: nat)
    requires Explains(room, seen, events, sent) && i < |sent|
    requires forall p, q :: 0 <= p <= q < |events| ==> !RelatesTo(events[q], events[p].id)
    ensures var p := Positions(room, events)[i];
            p < |events| && Produce(room, events[p]).Produces?
            && Rendered(seen + events, Produce(room, events[p]).base, sent[i])
  {
    var p := Positions(room, events)[i];
    assert p in Positions(room, events);
    TailIrrelevant(seen, events, p, events[p].id);
    SameRelationsSameRendering(seen + events[..p], seen + events, Produce(room, events[p]).base, sent[i]);
  }

  // ---- A single message (`MessageFetcher`) ----

  method FetchMessage(cache: CachedRoom, event: Event, relations: seq<Event>) returns (r: Result<Message, FetchError>)
    requires cache.Valid() && RelationIdsUnique(cache.seen + relations + [event])
    modifies cache
    ensures r.Ok? <==> !UpToBreak(cache.roomId, relations).1 && Produce(cache.roomId, event).Produces?
    ensures r.Ok? ==> Rendered(old(cache.seen) + relations, Produce(cache.roomId, event).base, r.value)
    ensures cache.Valid()
    ensures var (usable, broken) := UpToBreak(cache.roomId, relations);
            cache.seen == old(cache.seen) +
              if broken then relations[..Min(|usable| + 1, |relations|)] else relations + [event]
  {
    ghost var was := cache.seen;
    for k := 0 to |relations|
      invariant cache.Valid() && cache.seen == was + relations[..k]
      invariant UpToBreak(cache.roomId, relations[..k]) == (relations[..k], false)
    {
      assert was + relations[..k] + [relations[k]] == was + relations[..k + 1];
      UniqueSubset(was + relations + [event], was + relations[..k + 1]);
      assert relations[..k + 1] == relations[..k] + [relations[k]];
      UpToBreakNext(cache.roomId, relations[..k], relations[k]);
      var cached := cache.ProcessTimelineEvent(relations[k]);
      if cached.Err? {
        UpToBreakConcat(cache.roomId, relations[..k + 1], relations[k + 1..]);
        assert relations == relations[..k + 1] + relations[k + 1..];
        return Err(AssembleError);
      }
    }
    assert relations[..|relations|] == relations;
    var action := cache.ProcessTimelineEvent(event);
    if action.Ok? && action.value.Some? && action.value.value.MessageAction? {
      return Ok(action.value.value.message);
    }
    return Err(AssembleError);
  }

  /** The same in terms of the events: when a single message is fetched, and what it tells. */
  lemma FetchedTells(room: string, seen: seq<Event>, relations: seq<Event>, event: Event, m: Message)
    ensures !UpToBreak(room, relations).1 && Produce(room, event).Produces? <==>
            PollKindsKnown(relations) && IsMessage(event)
    ensures Produce(room, event).Produces? && Rendered(seen + relations, Produce(room, event).base, m) ==>
            Tells(room, seen + relations, event, m)
  {
    UnbrokenIff(room, relations);
    ProducesIff(room, event);
    if Produce(room, event).Produces? && Rendered(seen + relations, Produce(room, event).base, m) {
      MessageTells(room, seen + relations, event, m);
    }
  }
}
