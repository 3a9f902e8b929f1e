/** The paged list: every await is a request in flight that may be answered, or fail, at any later step. */
module PagedList {
  import opened Options
  import opened Basics

  datatype Page<T> = Page(list: seq<T>, total: int)

  datatype Kind = Refresh | More

  /** A call suspended at its await. */
  datatype Request = Request(kind: Kind, generation: nat, page: nat)

  /** The fields of the composable. */
  datatype List<T> = List(items: seq<T>, page: nat, total: int, loading: bool, loadingMore: bool, generation: nat)
  {
    predicate HasMore() { |items| < total }
  }

  /** One page that was put into `items`, and the generation that asked for it. */
  datatype Commit<T> = Commit(page: nat, generation: nat, list: seq<T>)

  /** The list, its requests in flight, and the pages committed since the last successful refresh. */
  datatype System<T> = System(list: List<T>, inFlight: set<Request>, log: seq<Commit<T>>)

  datatype Event<T> =
    | CallRefresh
    | CallMore
    | Answer(request: Request, result: Page<T>)
    | Fail(request: Request)

  function Empty<T>(): List<T> {
    List([], 1, 0, false, false, 0)
  }

  // ---- the four pieces of code between awaits ----

  function BeginRefresh<T>(l: List<T>): List<T> {
    l.(generation := l.generation + 1, loading := true, loadingMore := false)
  }

  function SettleRefresh<T>(l: List<T>, generation: nat, result: Option<Page<T>>): List<T> {
    if generation != l.generation then l
    else match result
      case Some(p) => l.(items := p.list, page := 1, total := p.total, loading := false)
      case None => l.(loading := false)
  }

  predicate CanLoadMore<T>(l: List<T>) {
    !l.loading && !l.loadingMore && l.HasMore()
  }

  function BeginMore<T>(l: List<T>): List<T> {
    if CanLoadMore(l) then l.(loadingMore := true) else l
  }

  function SettleMore<T>(l: List<T>, generation: nat, page: nat, result: Option<Page<T>>): List<T> {
    if generation != l.generation then l
    else match result
      case Some(p) => l.(items := l.items + p.list, page := page, total := p.total, loadingMore := false)
      case None => l.(loadingMore := false)
  }

  // ---- all interleavings ----

  function Initial<T>(): System<T> {
    System(Empty(), {}, [])
  }

  function Committed<T>(s: System<T>, r: Request, list: seq<T>): seq<Commit<T>> {
    if r.generation != s.list.generation then s.log
    else if r.kind == Refresh then [Commit(r.page, r.generation, list)]
    else s.log + [Commit(r.page, r.generation, list)]
  }

  function Settle<T>(l: List<T>, r: Request, result: Option<Page<T>>): List<T> {
    match r.kind
    case Refresh => SettleRefresh(l, r.generation, result)
    case More => SettleMore(l, r.generation, r.page, result)
  }

  /** Only a request in flight can be answered or fail. */
  function Next<T>(s: System<T>, e: Event<T>): System<T> {
    match e
    case CallRefresh =>
      var l := BeginRefresh(s.list);
      System(l, s.inFlight + {Request(Refresh, l.generation, 1)}, s.log)
    case CallMore =>
      if CanLoadMore(s.list)
      then System(BeginMore(s.list), s.inFlight + {Request(More, s.list.generation, s.list.page + 1)}, s.log)
      else s
    case Answer(r, p) =>
      if r in s.inFlight then System(Settle(s.list, r, Some(p)), s.inFlight - {r}, Committed(s, r, p.list)) else s
    case Fail(r) =>
      if r in s.inFlight then System(Settle(s.list, r, None), s.inFlight - {r}, s.log) else s
  }

  function Run<T>(events: seq<Event<T>>): System<T> {
    if events == [] then Initial() else Next(Run(events[..|events| - 1]), events[|events| - 1])
  }

  function Pages<T>(log: seq<Commit<T>>): seq<T> {
    if log == [] then [] else Pages(log[..|log| - 1]) + log[|log| - 1].list
  }

  /** `items` is the concatenation of pages 1 to `page`, none skipped or repeated. */
  ghost predicate ShowsPages<T>(s: System<T>) {
    && s.list.items == Pages(s.log)
    && (forall i | 0 <= i < |s.log| :: s.log[i].page == i + 1)
    && (if s.log == [] then s.list.page == 1 && s.list.total == 0 else s.list.page == |s.log|)
  }

  /** Generations of the pages shown never go back, and none is from the future. */
  predicate OrderedGenerations<T>(s: System<T>) {
    && (forall i, j | 0 <= i < j < |s.log| :: s.log[i].generation <= s.log[j].generation)
    && (forall i | 0 <= i < |s.log| :: s.log[i].generation <= s.list.generation)
  }

  /** The flags say exactly which request of the current generation is in flight. */
  predicate FlagsAreExact<T>(s: System<T>) {
    && (s.list.loading <==> Request(Refresh, s.list.generation, 1) in s.inFlight)
    && (s.list.loadingMore <==> Request(More, s.list.generation, s.list.page + 1) in s.inFlight)
    && !(s.list.loading && s.list.loadingMore)
    && (forall r | r in s.inFlight :: r.generation <= s.list.generation)
    && (forall r | r in s.inFlight && r.generation == s.list.generation ::
          r == Request(Refresh, s.list.generation, 1) || r == Request(More, s.list.generation, s.list.page + 1))
    && (forall r | r in s.inFlight && r.kind == Refresh :: r.page == 1)
    && (s.list.loadingMore ==> s.log != [])
  }

  ghost predicate Inv<T>(s: System<T>) {
    ShowsPages(s) && OrderedGenerations(s) && FlagsAreExact(s)
  }

  lemma {:induction false} PagesAppend<T>(log: seq<Commit<T>>, c: Commit<T>)
    ensures Pages(log + [c]) == Pages(log) + c.list
  {
    assert (log + [c])[..|log|] == log;
  }

  lemma {:induction false} FirstPageShows<T>(c: Commit<T>, l: List<T>, inFlight: set<Request>)
    requires l.items == c.list && l.page == 1 == c.page
    ensures ShowsPages(System(l, inFlight, [c]))
  {
    PagesAppend([], c);
    assert [] + [c] == [c] && [] + c.list == c.list;
  }

  lemma {:induction false} NextPageShows<T>(s: System<T>, c: Commit<T>, l: List<T>, inFlight: set<Request>)
    requires ShowsPages(s) && s.log != [] && c.page == s.list.page + 1
    requires l.items == s.list.items + c.list && l.page == c.page
    ensures ShowsPages(System(l, inFlight, s.log + [c]))
  {
    PagesAppend(s.log, c);
  }

  lemma {:induction false} AnswerKeepsPages<T>(s: System<T>, r: Request, p: Page<T>)
    requires ShowsPages(s) && FlagsAreExact(s) && r in s.inFlight
    ensures ShowsPages(Next(s, Answer(r, p)))
  {
    var c := Commit(r.page, r.generation, p.list);
    var l := Settle(s.list, r, Some(p));
    if r.generation == s.list.generation {
      if r.kind == Refresh {
        FirstPageShows(c, l, s.inFlight - {r});
      } else {
        NextPageShows(s, c, l, s.inFlight - {r});
      }
    }
  }

  lemma NextKeepsGenerations<T>(s: System<T>, e: Event<T>)
    requires OrderedGenerations(s)
    ensures OrderedGenerations(Next(s, e))
  {
  }

  lemma CallsKeepFlags<T>(s: System<T>, e: Event<T>)
    requires FlagsAreExact(s) && ShowsPages(s) && (e.CallRefresh? || e.CallMore?)
    ensures FlagsAreExact(Next(s, e))
  {
  }

  lemma SettlesKeepFlags<T>(s: System<T>, e: Event<T>)
    requires FlagsAreExact(s) && (e.Answer? || e.Fail?)
    ensures FlagsAreExact(Next(s, e))
  {
  }

  lemma NextKeepsInv<T>(s: System<T>, e: Event<T>)
    requires Inv(s)
    ensures Inv(Next(s, e))
  {
    NextKeepsGenerations(s, e);
    if e.CallRefresh? || e.CallMore? {
      CallsKeepFlags(s, e);
    } else {
      SettlesKeepFlags(s, e);
      if e.Answer? && e.request in s.inFlight {
        AnswerKeepsPages(s, e.request, e.result);
      }
    }
  }

  /** Whatever the interleaving of calls, answers and failures. */
  lemma {:induction false} RunKeepsInv<T>(events: seq<Event<T>>)
    ensures Inv(Run(events))
  {
    if events != [] {
      RunKeepsInv(events[..|events| - 1]);
      NextKeepsInv(Run(events[..|events| - 1]), events[|events| - 1]);
    }
  }

  /** At most one request of the current generation is in flight. */
  lemma OneCurrentRequest<T>(events: seq<Event<T>>, q: Request, r: Request)
    requires q in Run(events).inFlight && r in Run(events).inFlight
    requires q.generation == r.generation == Run(events).list.generation
    ensures q == r
  {
    RunKeepsInv(events);
  }

  function RefreshCalls<T>(events: seq<Event<T>>): nat {
    if events == [] then 0
    else RefreshCalls(events[..|events| - 1]) + if events[|events| - 1].CallRefresh? then 1 else 0
  }

  lemma {:induction false} GenerationCountsRefreshes<T>(events: seq<Event<T>>)
    ensures Run(events).list.generation == RefreshCalls(events)
  {
    if events != [] {
      GenerationCountsRefreshes(events[..|events| - 1]);
    }
  }

  /** An answer or a failure that a later refresh overtook changes no field of the list. */
  lemma {:induction false} StaleSettlesChangeNothing<T>(before: seq<Event<T>>, between: seq<Event<T>>, e: Event<T>)
    requires (e.Answer? || e.Fail?) && e.request in Run(before).inFlight
    requires exists i :: 0 <= i < |between| && between[i].CallRefresh?
    ensures Next(Run(before + between), e).list == Run(before + between).list
    ensures Next(Run(before + between), e).log == Run(before + between).log
  {
    RunKeepsInv(before);
    GenerationCountsRefreshes(before);
    GenerationCountsRefreshes(before + between);
    RefreshCallsConcat(before, between);
    SomeRefreshCounts(between);
  }

  lemma {:induction false} RefreshCallsConcat<T>(a: seq<Event<T>>, b: seq<Event<T>>)
    ensures RefreshCalls(a + b) == RefreshCalls(a) + RefreshCalls(b)
  {
    if b == [] {
      assert a + b == a;
    } else {
      var last := |b| - 1;
      assert (a + b)[..|a + b| - 1] == a + b[..last] && (a + b)[|a + b| - 1] == b[last];
      RefreshCallsConcat(a, b[..last]);
    }
  }

  lemma {:induction false} SomeRefreshCounts<T>(events: seq<Event<T>>)
    requires exists i :: 0 <= i < |events| && events[i].CallRefresh?
    ensures RefreshCalls(events) > 0
  {
    var i :| 0 <= i < |events| && events[i].CallRefresh?;
    if i < |events| - 1 {
      assert events[..|events| - 1][i].CallRefresh?;
      SomeRefreshCounts(events[..|events| - 1]);
    }
  }

  // ---- completeness against a list that does not change ----

  /** Page `page`, counted from one, of `all` cut into pages of `size`. */
  function Serve<T>(all: seq<T>, size: nat, page: nat): Page<T>
    requires page >= 1
  {
    var from, to := (page - 1) * size, page * size;
    Page(all[Min(from, |all|)..Min(to, |all|)], |all|)
  }

  /** The number of pages, at least one: an empty list is fetched once. */
  function LastPage(length: nat, size: nat): nat
    requires size >= 1
  {
    if length == 0 then 1 else (length + size - 1) / size
  }

  ghost predicate Faithful<T>(e: Event<T>, all: seq<T>, size: nat) {
    e.Answer? ==> e.request.page >= 1 && e.result == Serve(all, size, e.request.page)
  }

  ghost predicate ShowsPrefix<T>(s: System<T>, all: seq<T>, size: nat)
    requires size >= 1
  {
    && (s.log != [] ==> s.list.page >= 1 && s.list.total == |all| && s.list.items == all[..Min(s.list.page * size, |all|)])
    && (s.log != [] ==> s.list.page <= LastPage(|all|, size))
    && (forall r | r in s.inFlight :: 1 <= r.page <= LastPage(|all|, size))
  }

  lemma TimesIsMonotone(a: int, b: int, size: nat)
    requires a <= b
    ensures a * size <= b * size
  {
  }

  lemma LastPageMeans(length: nat, size: nat, page: nat)
    requires size >= 1 && page >= 1
    ensures page < LastPage(length, size) <==> page * size < length
    ensures LastPage(length, size) >= 1
  {
    var q := (length + size - 1) / size;
    assert q * size + (length + size - 1) % size == length + size - 1;
    if length == 0 {
      TimesIsMonotone(1, page, size);
    } else if page < q {
      TimesIsMonotone(page, q - 1, size);
      assert (q - 1) * size == q * size - size;
    } else {
      TimesIsMonotone(q, page, size);
    }
  }

  lemma NextPageExtendsPrefix<T>(all: seq<T>, size: nat, page: nat)
    requires size >= 1 && page >= 1
    ensures all[..Min(page * size, |all|)] + Serve(all, size, page + 1).list == all[..Min((page + 1) * size, |all|)]
  {
  }

  lemma NextKeepsPrefix<T>(s: System<T>, e: Event<T>, all: seq<T>, size: nat)
    requires size >= 1 && Inv(s) && ShowsPrefix(s, all, size) && Faithful(e, all, size)
    ensures ShowsPrefix(Next(s, e), all, size)
  {
    LastPageMeans(|all|, size, 1);
    match e
    case CallRefresh =>
    case CallMore =>
      if CanLoadMore(s.list) {
        LastPageMeans(|all|, size, s.list.page);
      }
    case Answer(r, p) =>
      if r in s.inFlight && r.generation == s.list.generation && r.kind == More {
        NextPageExtendsPrefix(all, size, s.list.page);
      } else if r in s.inFlight && r.generation == s.list.generation {
        assert (1 - 1) * size == 0 && 1 * size == size;
      }
    case Fail(r) =>
  }

  lemma {:induction false} RunKeepsPrefix<T>(events: seq<Event<T>>, all: seq<T>, size: nat)
    requires size >= 1 && forall i | 0 <= i < |events| :: Faithful(events[i], all, size)
    ensures ShowsPrefix(Run(events), all, size)
  {
    if events != [] {
      RunKeepsPrefix(events[..|events| - 1], all, size);
      RunKeepsInv(events[..|events| - 1]);
      NextKeepsPrefix(Run(events[..|events| - 1]), events[|events| - 1], all, size);
    }
  }

  /** After any run in which every answer is faithful, once some refresh succeeded: `items` is the prefix
      made of the committed pages, and there is no more to load exactly when all pages, and so the
      whole list, have been committed. No request ever asks for a page past the last. */
  lemma {:induction false} ListIsComplete<T>(events: seq<Event<T>>, all: seq<T>, size: nat)
    requires size >= 1 && forall i | 0 <= i < |events| :: Faithful(events[i], all, size)
    ensures var s := Run(events);
      && (forall r | r in s.inFlight :: 1 <= r.page <= LastPage(|all|, size))
      && (s.log != [] ==>
            && s.list.items == all[..Min(|s.log| * size, |all|)]
            && (!s.list.HasMore() <==> |s.log| == LastPage(|all|, size))
            && (!s.list.HasMore() <==> s.list.items == all))
  {
    RunKeepsInv(events);
    RunKeepsPrefix(events, all, size);
    var s := Run(events);
    if s.log != [] {
      LastPageMeans(|all|, size, s.list.page);
      assert |s.list.items| == Min(s.list.page * size, |all|);
      assert all[..|all|] == all;
    }
  }

  /** Progress: an idle list with more to load commits the next page as soon as it is answered, even
      after any number of failed attempts. */
  lemma NextPageCommits<T>(events: seq<Event<T>>, p: Page<T>)
    requires CanLoadMore(Run(events).list)
    ensures var s := Run(events); var r := Request(More, s.list.generation, s.list.page + 1);
      && Next(Next(s, CallMore), Fail(r)) == s
      && var t := Next(Next(s, CallMore), Answer(r, p));
        t.list == s.list.(items := s.list.items + p.list, page := s.list.page + 1, total := p.total) && t.inFlight == s.inFlight
  {
    RunKeepsInv(events);
    var s := Run(events);
    var r := Request(More, s.list.generation, s.list.page + 1);
    assert s.inFlight + {r} - {r} == s.inFlight;
  }

  /** A first page, then a refresh that fails. */
  lemma FailedRefresh(p: Page<int>)
    ensures Run([CallRefresh, Answer(Request(Refresh, 1, 1), p), CallRefresh, Fail(Request(Refresh, 2, 1))])
      == System(List(p.list, 1, p.total, false, false, 2), {}, [Commit(1, 1, p.list)])
  {
    var e0, e1, e2 := CallRefresh, Answer(Request(Refresh, 1, 1), p), Fail(Request(Refresh, 2, 1));
    RunSnoc([], e0);
    RunSnoc([e0], e1);
    RunSnoc([e0, e1], e0);
    RunSnoc([e0, e1, e0], e2);
    assert [] + [e0] == [e0] && [e0] + [e1] == [e0, e1] && [e0, e1] + [e0] == [e0, e1, e0] && [e0, e1, e0] + [e2] == [e0, e1, e0, e2];
    assert Run([e0, e1]) == System(List(p.list, 1, p.total, false, false, 1), {}, [Commit(1, 1, p.list)]);
  }

  /** Pages of two generations can stand side by side: a failed refresh keeps the old pages, and the next
      page is then loaded under the new generation. */
  lemma PagesMaySpanGenerations()
    ensures var p := Page([0], 2);
      var failed := [CallRefresh, Answer(Request(Refresh, 1, 1), p), CallRefresh, Fail(Request(Refresh, 2, 1))];
      Run(failed + [CallMore] + [Answer(Request(More, 2, 2), p)]).log == [Commit(1, 1, [0]), Commit(2, 2, [0])]
  {
    var p := Page([0], 2);
    var failed := [CallRefresh, Answer(Request(Refresh, 1, 1), p), CallRefresh, Fail(Request(Refresh, 2, 1))];
    FailedRefresh(p);
    RunSnoc(failed, CallMore);
    RunSnoc(failed + [CallMore], Answer(Request(More, 2, 2), p));
  }

  lemma RunSnoc<T>(events: seq<Event<T>>, e: Event<T>)
    ensures Run(events + [e]) == Next(Run(events), e)
  {
  }

  // ---- the composable ----

  /** The call a settled request resumes. */
  function Settled<T>(r: Request, result: Option<Page<T>>): Event<T> {
    if result.Some? then Answer(r, result.value) else Fail(r)
  }

  lemma {:induction false} CallRefreshStarts<T>(events: seq<Event<T>>)
    ensures var s, t := Run(events), Run(events + [CallRefresh]);
      && t.list == BeginRefresh(s.list) && t.list.generation == RefreshCalls(events + [CallRefresh])
      && Request(Refresh, t.list.generation, 1) in t.inFlight
      && (forall r | r in s.inFlight :: r.generation < t.list.generation)
  {
    RunSnoc(events, CallRefresh);
    RunKeepsInv(events);
    GenerationCountsRefreshes(events + [CallRefresh]);
  }

  lemma {:induction false} SettlingCounts<T>(events: seq<Event<T>>, r: Request, result: Option<Page<T>>)
    requires r in Run(events).inFlight
    ensures var s, t := Run(events), Run(events + [Settled(r, result)]);
      && t.list == Settle(s.list, r, result) && s.list.generation == RefreshCalls(events)
      && r !in t.inFlight && t.list.items == Pages(t.log)
  {
    RunSnoc(events, Settled(r, result));
    RunKeepsInv(events + [Settled(r, result)]);
    GenerationCountsRefreshes(events);
  }

  /** `events` is what has happened to the list; the theorems above are about it. */
  class Controller<T> {
    var items: seq<T>
    var page: nat
    var total: int
    var loading: bool
    var loadingMore: bool
    var generation: nat
    ghost var events: seq<Event<T>>

    function View(): List<T>
      reads this
    {
      List(items, page, total, loading, loadingMore, generation)
    }

    ghost predicate Valid()
      reads this
    {
      View() == Run(events).list
    }

    /** The requests whose calls are suspended. */
    ghost function InFlight(): set<Request>
      reads this
    {
      Run(events).inFlight
    }

    constructor ()
      ensures Valid() && events == [] && items == [] && page == 1 && total == 0 && !loading && !loadingMore
    {
      items, page, total, loading, loadingMore, generation := [], 1, 0, false, false, 0;
      events := [];
    }

    predicate HasMore()
      reads this
    {
      |items| < total
    }

    /** refresh up to its await: from now on no request that was in flight counts. */
    method StartRefresh() returns (requestGeneration: nat)
      requires Valid()
      modifies this
      ensures Valid() && events == old(events) + [CallRefresh]
      ensures requestGeneration == RefreshCalls(events) && Request(Refresh, requestGeneration, 1) in InFlight()
      ensures forall r | r in old(InFlight()) :: r.generation < requestGeneration
      ensures loading && !loadingMore && items == old(items) && page == old(page) && total == old(total)
    {
      generation := generation + 1;
      requestGeneration := generation;
      loading := true;
      loadingMore := false;
      events := events + [CallRefresh];
      CallRefreshStarts(old(events));
    }

    /** refresh after its await; `reported` is the call of onError. It counts exactly when no refresh has been
        called since, and then shows page 1 alone, or what was shown before. */
    method FinishRefresh(requestGeneration: nat, result: Option<Page<T>>) returns (ok: bool, reported: bool)
      requires Valid() && Request(Refresh, requestGeneration, 1) in InFlight()
      modifies this
      ensures Valid() && events == old(events) + [Settled(Request(Refresh, requestGeneration, 1), result)]
      ensures ok <==> result.Some? && requestGeneration == RefreshCalls(old(events))
      ensures reported <==> result.None? && requestGeneration == RefreshCalls(old(events))
      ensures items == Pages(Run(events).log) && items == if ok then result.value.list else old(items)
      ensures page == (if ok then 1 else old(page)) && total == if ok then result.value.total else old(total)
      ensures ok || reported ==> !loading && loadingMore == old(loadingMore)
      ensures !ok && !reported ==> View() == old(View())
    {
      ok, reported := false, false;
      if result.Some? {
        if requestGeneration == generation {
          items := result.value.list;
          page := 1;
          total := result.value.total;
          ok := true;
        }
      } else if requestGeneration == generation {
        reported := true;
      }
      if requestGeneration == generation {
        loading := false;
      }
      events := events + [Settled(Request(Refresh, requestGeneration, 1), result)];
      SettlingCounts(old(events), Request(Refresh, requestGeneration, 1), result);
    }

    /** loadMore up to its await: None when it returns at once. It asks for the page after the last one shown,
        exactly when nothing current is in flight and the server has more. */
    method StartMore() returns (request: Option<Request>)
      requires Valid()
      modifies this
      ensures Valid() && events == old(events) + [CallMore]
      ensures request.Some? <==> (forall r | r in old(InFlight()) :: r.generation != old(generation)) && |old(items)| < old(total)
      ensures request.Some? ==> request.value == Request(More, generation, page + 1) && request.value in InFlight()
      ensures items == old(items) && page == old(page) && total == old(total) && loading == old(loading)
    {
      IdleMeansNothingCurrent(events);
      events := events + [CallMore];
      RunSnoc(old(events), CallMore);
      if loading || loadingMore || !HasMore() {
        return None;
      }
      loadingMore := true;
      return Some(Request(More, generation, page + 1));
    }

    /** loadMore after its await. */
    method FinishMore(requestGeneration: nat, nextPage: nat, result: Option<Page<T>>) returns (ok: bool, reported: bool)
      requires Valid() && Request(More, requestGeneration, nextPage) in InFlight()
      modifies this
      ensures Valid() && events == old(events) + [Settled(Request(More, requestGeneration, nextPage), result)]
      ensures ok <==> result.Some? && requestGeneration == RefreshCalls(old(events))
      ensures reported <==> result.None? && requestGeneration == RefreshCalls(old(events))
      ensures items == Pages(Run(events).log) && items == if ok then old(items) + result.value.list else old(items)
      ensures page == (if ok then old(page) + 1 else old(page)) && total == if ok then result.value.total else old(total)
      ensures ok || reported ==> !loadingMore && loading == old(loading)
      ensures !ok && !reported ==> View() == old(View())
    {
      ok, reported := false, false;
      RunKeepsInv(events);
      if result.Some? {
        if requestGeneration == generation {
          items := items + result.value.list;
          page := nextPage;
          total := result.value.total;
          ok := true;
        }
      } else if requestGeneration == generation {
        reported := true;
      }
      if requestGeneration == generation {
        loadingMore := false;
      }
      events := events + [Settled(Request(More, requestGeneration, nextPage), result)];
      SettlingCounts(old(events), Request(More, requestGeneration, nextPage), result);
    }
  }

  lemma {:induction false} IdleMeansNothingCurrent<T>(events: seq<Event<T>>)
    ensures var s := Run(events);
      !s.list.loading && !s.list.loadingMore <==> forall r | r in s.inFlight :: r.generation != s.list.generation
  {
    RunKeepsInv(events);
  }
}
