// Content pages behind a read-through cache that is never invalidated, only expires.
module Content {
  import opened Common
  import opened Redis
  import opened Sorting

  const CACHE_TTL := 600 * SECOND
  const KINDS: set<string> := {"traffic_rules", "road_signs", "fines", "tips"}

  datatype Page = Page(kind: string, lang: string, slug: string, title: string, body: string, updatedAt: int)

  // The page table and the cache of serialised listings.
  datatype State = State(pages: seq<Page>, cache: Store<seq<Page>>)

  datatype Answer = Pages(payload: seq<Page>) | UnknownKind | Saved

  function CacheKey(kind: string, lang: string): string {
    "content:" + kind + ":" + lang
  }

  // ---- the table ----------------------------------------------------------------------------------

  // ORDER BY slug, by code point.
  predicate LexLe(a: string, b: string) {
    a == "" || (b != "" && (a[0] < b[0] || (a[0] == b[0] && LexLe(a[1..], b[1..]))))
  }

  predicate SlugLe(a: Page, b: Page) {
    LexLe(a.slug, b.slug)
  }

  function Matching(pages: seq<Page>, kind: string, lang: string): seq<Page> {
    if pages == [] then []
    else
      var last := pages[|pages| - 1];
      Matching(pages[..|pages| - 1], kind, lang) + if last.kind == kind && last.lang == lang then [last] else []
  }

  function Listing(pages: seq<Page>, kind: string, lang: string): seq<Page> {
    Sort(SlugLe, Matching(pages, kind, lang))
  }

  function FindSlug(pages: seq<Page>, kind: string, lang: string, slug: string): Option<nat> {
    if pages == [] then None
    else
      var last := pages[|pages| - 1];
      if last.kind == kind && last.lang == lang && last.slug == slug then Some(|pages| - 1)
      else FindSlug(pages[..|pages| - 1], kind, lang, slug)
  }

  lemma {:induction false} FindSlugFinds(pages: seq<Page>, kind: string, lang: string, slug: string)
    ensures var i := FindSlug(pages, kind, lang, slug);
            && (i.Some? ==> i.value < |pages| && pages[i.value].kind == kind && pages[i.value].lang == lang
                            && pages[i.value].slug == slug)
            && (i.None? ==> forall j | 0 <= j < |pages| ::
                              !(pages[j].kind == kind && pages[j].lang == lang && pages[j].slug == slug))
  {
    if pages != [] {
      FindSlugFinds(pages[..|pages| - 1], kind, lang, slug);
      assert forall j | 0 <= j < |pages| - 1 :: pages[..|pages| - 1][j] == pages[j];
    }
  }

  // ---- specification ---------------------------------------------------------------------------------

  // `cached` tells whether a cache client is there at all.
  function ListPages(s: State, cached: bool, kind: string, lang: string, now: int): (State, Answer) {
    if kind !in KINDS then (s, UnknownKind)
    else if !cached then (s, Pages(Listing(s.pages, kind, lang)))
    else
      var key := CacheKey(kind, lang);
      match Get(s.cache, key, now)
      case Some(payload) => (s.(cache := At(s.cache, now)), Pages(payload))
      case None =>
        var payload := Listing(s.pages, kind, lang);
        (s.(cache := At(s.cache, now)[key := Entry(payload, now + CACHE_TTL)]), Pages(payload))
  }

  // The timestamp moves only when a column does.
  function Rewritten(p: Page, title: string, body: string, now: int): Page {
    p.(title := title, body := body, updatedAt := if p.title == title && p.body == body then p.updatedAt else now)
  }

  function UpsertPage(s: State, kind: string, lang: string, slug: string, title: string, body: string, now: int)
    : (State, Answer)
  {
    FindSlugFinds(s.pages, kind, lang, slug);
    if kind !in KINDS then (s, UnknownKind)
    else match FindSlug(s.pages, kind, lang, slug)
      case None => (s.(pages := s.pages + [Page(kind, lang, slug, title, body, now)]), Saved)
      case Some(i) => (s.(pages := s.pages[i := Rewritten(s.pages[i], title, body, now)]), Saved)
  }

  class ContentDb {
    var pages: seq<Page>

    method DoList(redis: RedisDb?<seq<Page>>, kind: string, lang: string, now: int) returns (answer: Answer)
      modifies redis
      ensures pages == old(pages)
      ensures redis == null ==> answer == ListPages(State(pages, map[]), false, kind, lang, now).1
      ensures redis != null ==>
                (State(pages, redis.store), answer)
                == ListPages(State(pages, old(redis.store)), true, kind, lang, now)
    {
      if kind !in KINDS {
        return UnknownKind;
      }
      if redis != null {
        var found := redis.Fetch(CacheKey(kind, lang), now);
        if found.Some? {
          return Pages(found.value);
        }
      }
      var payload := Listing(pages, kind, lang);
      if redis != null {
        redis.SetEx(CacheKey(kind, lang), payload, now + CACHE_TTL);
      }
      return Pages(payload);
    }

    method DoUpsert(kind: string, lang: string, slug: string, title: string, body: string, now: int)
      returns (answer: Answer)
      modifies this
      ensures forall cache: Store<seq<Page>> ::
                (State(pages, cache), answer)
                == UpsertPage(State(old(pages), cache), kind, lang, slug, title, body, now)
    {
      if kind !in KINDS {
        return UnknownKind;
      }
      var existing := FindSlug(pages, kind, lang, slug);
      FindSlugFinds(pages, kind, lang, slug);
      if existing.None? {
        pages := pages + [Page(kind, lang, slug, title, body, now)];
        return Saved;
      }
      var page := pages[existing.value];
      var dirty := page.title != title || page.body != body;
      page := page.(title := title);
      page := page.(body := body);
      if dirty {
        page := page.(updatedAt := now);
      }
      pages := pages[existing.value := page];
      return Saved;
    }
  }

  // ---- a listing is the table's rows in slug order --------------------------------------------------------

  lemma {:induction false} LexTotal(a: string, b: string)
    ensures LexLe(a, b) || LexLe(b, a)
    ensures LexLe(a, b) && LexLe(b, a) ==> a == b
  {
    if a != "" && b != "" && a[0] == b[0] {
      LexTotal(a[1..], b[1..]);
      assert a == [a[0]] + a[1..] && b == [b[0]] + b[1..];
    }
  }

  lemma {:induction false} LexTransitive(a: string, b: string, c: string)
    requires LexLe(a, b) && LexLe(b, c)
    ensures LexLe(a, c)
  {
    if a != "" && a[0] == b[0] && b[0] == c[0] {
      LexTransitive(a[1..], b[1..], c[1..]);
    }
  }

  lemma SlugOrder()
    ensures TotalPreorder(SlugLe)
  {
    forall a: Page, b: Page ensures SlugLe(a, b) || SlugLe(b, a) {
      LexTotal(a.slug, b.slug);
    }
    forall a: Page, b: Page, c: Page | SlugLe(a, b) && SlugLe(b, c) ensures SlugLe(a, c) {
      LexTransitive(a.slug, b.slug, c.slug);
    }
  }

  ghost predicate SlugsUnique(pages: seq<Page>) {
    forall i, j | 0 <= i < j < |pages| ::
      !(pages[i].kind == pages[j].kind && pages[i].lang == pages[j].lang && pages[i].slug == pages[j].slug)
  }

  lemma {:induction false} MatchingIsExact(pages: seq<Page>, kind: string, lang: string)
    ensures forall p :: p in Matching(pages, kind, lang) <==> p in pages && p.kind == kind && p.lang == lang
    ensures SlugsUnique(pages) ==> SlugsUnique(Matching(pages, kind, lang))
  {
    if pages != [] {
      var front, last := pages[..|pages| - 1], pages[|pages| - 1];
      MatchingIsExact(front, kind, lang);
      assert pages == front + [last];
      if SlugsUnique(pages) {
        assert SlugsUnique(front);
        var m := Matching(front, kind, lang);
        forall i | 0 <= i < |m| && last.kind == kind && last.lang == lang ensures m[i].slug != last.slug {
          assert m[i] in front;
          var j :| 0 <= j < |front| && front[j] == m[i];
          assert pages[j] == m[i];
        }
      }
    }
  }

  lemma {:induction false} MatchingCounts(pages: seq<Page>, kind: string, lang: string, p: Page)
    ensures multiset(Matching(pages, kind, lang))[p]
         == if p.kind == kind && p.lang == lang then multiset(pages)[p] else 0
  {
    if pages != [] {
      MatchingCounts(pages[..|pages| - 1], kind, lang, p);
      assert pages == pages[..|pages| - 1] + [pages[|pages| - 1]];
    }
  }

  // The listing holds exactly the rows of its kind and language, each as often as the table, in slug
  // order.
  lemma ListingIsExact(pages: seq<Page>, kind: string, lang: string)
    ensures Sorted(SlugLe, Listing(pages, kind, lang))
    ensures forall p :: p in Listing(pages, kind, lang) <==> p in pages && p.kind == kind && p.lang == lang
    ensures forall p :: multiset(Listing(pages, kind, lang))[p]
                        == if p.kind == kind && p.lang == lang then multiset(pages)[p] else 0
  {
    forall p ensures multiset(Matching(pages, kind, lang))[p]
                     == if p.kind == kind && p.lang == lang then multiset(pages)[p] else 0 {
      MatchingCounts(pages, kind, lang, p);
    }
    SlugOrder();
    SortSorts(SlugLe, Matching(pages, kind, lang));
    SortKeepsElements(SlugLe, Matching(pages, kind, lang));
    MatchingIsExact(pages, kind, lang);
    forall p ensures p in Listing(pages, kind, lang) <==> p in Matching(pages, kind, lang) {
      assert p in multiset(Listing(pages, kind, lang)) <==> p in multiset(Matching(pages, kind, lang));
    }
  }

  // ---- cache keys ---------------------------------------------------------------------------------------------

  // No kind holds a colon, so no two (kind, language) pairs share a cache key.
  lemma CacheKeyIsInjective(kind: string, lang: string, kind': string, lang': string)
    requires kind in KINDS && kind' in KINDS
    ensures CacheKey(kind, lang) == CacheKey(kind', lang') <==> kind == kind' && lang == lang'
  {
    if CacheKey(kind, lang) == CacheKey(kind', lang') {
      assert CacheKey(kind, lang)[8..] == kind + ":" + lang;
      assert CacheKey(kind', lang')[8..] == kind' + ":" + lang';
      ColonSplitIsUnique(kind, lang, kind', lang');
    }
  }

  // ---- runs ---------------------------------------------------------------------------------------------------

  datatype Event =
    | List(cached: bool, kind: string, lang: string, now: int)
    | Upsert(kind: string, lang: string, slug: string, title: string, body: string, now: int)

  function Apply(s: State, e: Event): (State, Answer) {
    match e
    case List(cached, kind, lang, now) => ListPages(s, cached, kind, lang, now)
    case Upsert(kind, lang, slug, title, body, now) => UpsertPage(s, kind, lang, slug, title, body, now)
  }

  // From some pages and an empty cache.
  function Run(pages: seq<Page>, es: seq<Event>): State {
    if es == [] then State(pages, map[])
    else Apply(Run(pages, es[..|es| - 1]), es[|es| - 1]).0
  }

  lemma {:induction false} UpsertsKeepSlugsUnique(pages: seq<Page>, es: seq<Event>)
    requires SlugsUnique(pages)
    ensures SlugsUnique(Run(pages, es).pages)
  {
    if es != [] {
      UpsertsKeepSlugsUnique(pages, es[..|es| - 1]);
      var e := es[|es| - 1];
      if e.Upsert? {
        FindSlugFinds(Run(pages, es[..|es| - 1]).pages, e.kind, e.lang, e.slug);
      }
    }
  }

  // An upsert leaves exactly one row under its key, with the given text and stamped when that changes
  // it, and every other row alone.
  lemma UpsertIsExact(s: State, kind: string, lang: string, slug: string, title: string, body: string, now: int)
    requires SlugsUnique(s.pages) && kind in KINDS
    ensures var pages := UpsertPage(s, kind, lang, slug, title, body, now).0.pages;
            && (exists i | 0 <= i < |pages| ::
                  pages[i].kind == kind && pages[i].lang == lang && pages[i].slug == slug
                  && pages[i].title == title && pages[i].body == body
                  && (if i < |s.pages| && s.pages[i].title == title && s.pages[i].body == body
                      then pages[i] == s.pages[i] else pages[i].updatedAt == now))
            && SlugsUnique(pages)
            && |s.pages| <= |pages|
            && forall i | 0 <= i < |s.pages| ::
                 !(s.pages[i].kind == kind && s.pages[i].lang == lang && s.pages[i].slug == slug) ==>
                   pages[i] == s.pages[i]
  {
    FindSlugFinds(s.pages, kind, lang, slug);
    var pages := UpsertPage(s, kind, lang, slug, title, body, now).0.pages;
    var at := match FindSlug(s.pages, kind, lang, slug) case Some(i) => i case None => |s.pages|;
    assert pages[at].slug == slug;
  }

  ghost predicate ClockRuns(es: seq<Event>) {
    forall i, j | 0 <= i < j < |es| :: es[i].now <= es[j].now
  }

  // `payload` is the listing the table gave just before event `i`, at that event's time.
  ghost predicate ReadAt(pages: seq<Page>, es: seq<Event>, i: nat, kind: string, lang: string, payload: seq<Page>) {
    i < |es| && payload == Listing(Run(pages, es[..i]).pages, kind, lang)
  }

  // Every cached listing was read at some event whose time plus the TTL is its expiry.
  ghost predicate CacheIsHonest(pages: seq<Page>, es: seq<Event>, kind: string, lang: string)
  {
    var cache, key := Run(pages, es).cache, CacheKey(kind, lang);
    key in cache ==> exists i: nat ::
      ReadAt(pages, es, i, kind, lang, cache[key].value) && cache[key].expires == es[i].now + CACHE_TTL
  }

  lemma ReadAtPrefix(pages: seq<Page>, es: seq<Event>, i: nat, kind: string, lang: string, payload: seq<Page>)
    requires es != [] && ReadAt(pages, es[..|es| - 1], i, kind, lang, payload)
    ensures ReadAt(pages, es, i, kind, lang, payload) && es[..|es| - 1][i] == es[i]
  {
    assert es[..|es| - 1][..i] == es[..i];
  }

  lemma {:induction false} CacheStaysHonest(pages: seq<Page>, es: seq<Event>, kind: string, lang: string)
    requires kind in KINDS
    ensures CacheIsHonest(pages, es, kind, lang)
  {
    if es != [] {
      var front, e := es[..|es| - 1], es[|es| - 1];
      var before, after, key := Run(pages, front), Run(pages, es), CacheKey(kind, lang);
      CacheStaysHonest(pages, front, kind, lang);
      if key in after.cache {
        if key in before.cache && after.cache[key] == before.cache[key] {
          var i: nat :| ReadAt(pages, front, i, kind, lang, before.cache[key].value)
                        && before.cache[key].expires == front[i].now + CACHE_TTL;
          ReadAtPrefix(pages, es, i, kind, lang, before.cache[key].value);
        } else {
          CacheKeyIsInjective(kind, lang, e.kind, e.lang);
          assert ReadAt(pages, es, |es| - 1, kind, lang, after.cache[key].value);
        }
      }
    }
  }

  // Whatever upserts are interleaved, the listing answered at time t is the table's listing as it
  // stood at some instant in (t - 600 s, t].
  lemma AnswersAreAtMostTenMinutesStale(pages: seq<Page>, es: seq<Event>)
    requires ClockRuns(es) && es != [] && es[|es| - 1].List?
    ensures var e := es[|es| - 1];
            var answer := Apply(Run(pages, es[..|es| - 1]), e).1;
            if e.kind in KINDS then
              answer.Pages? && exists i: nat ::
                ReadAt(pages, es, i, e.kind, e.lang, answer.payload) && e.now - CACHE_TTL < es[i].now <= e.now
            else answer == UnknownKind
  {
    var front, e := es[..|es| - 1], es[|es| - 1];
    var before := Run(pages, front);
    if e.kind in KINDS {
      var answer, key := Apply(before, e).1, CacheKey(e.kind, e.lang);
      if e.cached && Get(before.cache, key, e.now).Some? {
        CacheStaysHonest(pages, front, e.kind, e.lang);
        var i: nat :| ReadAt(pages, front, i, e.kind, e.lang, before.cache[key].value)
                      && before.cache[key].expires == front[i].now + CACHE_TTL;
        ReadAtPrefix(pages, es, i, e.kind, e.lang, before.cache[key].value);
      } else {
        assert ReadAt(pages, es, |es| - 1, e.kind, e.lang, answer.payload);
      }
    }
  }

  predicate KnownKind(kind: string) {
    kind == "traffic_rules" || kind == "road_signs" || kind == "fines" || kind == "tips"
  }

  // A listing without a cache is the table's as it stands; an unknown kind is refused, and neither
  // that nor an upsert touches the cache.
  lemma ContentAnswers(s: State, e: Event)
    ensures var (s', answer) := Apply(s, e);
            && (answer == UnknownKind <==> !KnownKind(e.kind))
            && (answer == UnknownKind ==> s' == s)
            && (e.List? ==> s'.pages == s.pages)
            && (e.Upsert? || !e.cached ==> s'.cache == s.cache)
            && (e.List? && !e.cached && KnownKind(e.kind) ==> answer == Pages(Listing(s.pages, e.kind, e.lang)))
  {}

  // `key` holds this listing for a while after `now`.
  ghost predicate Caches(s: State, key: string, payload: seq<Page>, until: int) {
    key in s.cache && s.cache[key] == Entry(payload, until)
  }

  // A listing with a cache leaves its answer there; one read from the table stays ten minutes.
  lemma ListingIsCached(s: State, kind: string, lang: string, now: int)
    requires KnownKind(kind)
    ensures var (s', answer) := ListPages(s, true, kind, lang, now);
            var key := CacheKey(kind, lang);
            && answer.Pages?
            && (Get(s.cache, key, now) == None ==>
                  answer.payload == Listing(s.pages, kind, lang)
                  && Caches(s', key, answer.payload, now + 600_000_000))
            && (Get(s.cache, key, now) != None ==>
                  Caches(s, key, answer.payload, s.cache[key].expires)
                  && Caches(s', key, answer.payload, s.cache[key].expires))
  {}

  lemma StepKeepsCached(s: State, e: Event, key: string, payload: seq<Page>, until: int)
    requires Caches(s, key, payload, until) && e.now < until
    ensures Caches(Apply(s, e).0, key, payload, until)
  {}

  function RunFrom(s: State, es: seq<Event>): State {
    if es == [] then s else Apply(RunFrom(s, es[..|es| - 1]), es[|es| - 1]).0
  }

  lemma {:induction false} CachedStays(s: State, es: seq<Event>, key: string, payload: seq<Page>, until: int)
    requires Caches(s, key, payload, until) && forall i | 0 <= i < |es| :: es[i].now < until
    ensures Caches(RunFrom(s, es), key, payload, until)
  {
    if es != [] {
      CachedStays(s, es[..|es| - 1], key, payload, until);
      StepKeepsCached(RunFrom(s, es[..|es| - 1]), es[|es| - 1], key, payload, until);
    }
  }

  // The cache is what answers: for ten minutes after a listing was read from the table the same
  // request gets the same listing, whatever is upserted in between.
  lemma CachedAnswerIsRepeated(s: State, kind: string, lang: string, now: int, es: seq<Event>, later: int)
    requires KnownKind(kind) && Get(s.cache, CacheKey(kind, lang), now) == None
    requires now <= later < now + 600_000_000
    requires forall i | 0 <= i < |es| :: es[i].now <= later
    ensures var (s', answer) := ListPages(s, true, kind, lang, now);
            ListPages(RunFrom(s', es), true, kind, lang, later).1 == answer
  {
    ListingIsCached(s, kind, lang, now);
    var (s', answer) := ListPages(s, true, kind, lang, now);
    CachedStays(s', es, CacheKey(kind, lang), answer.payload, now + 600_000_000);
  }
}
