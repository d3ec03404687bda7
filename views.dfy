/**
 * The article and contact views of website/views.py, over the records of
 * website/models.py.
 *
 * A queryset is a sequence of `Article` records in the manager's default
 * ordering (newest first, `Meta.ordering = ["-created_at"]`), and an ORM
 * `filter(field=value, ...)` is `Filter` with one `Lookup` per keyword.
 * Rendering is reduced to the context each view hands to its template.
 */
module Views {
  import opened Wrappers

  /** A row of the `Article` table (website/models.py). */
  datatype Article = Article(
    title: string,
    slug: string,
    category: string,
    summary: string,
    body: string,
    createdAt: int,
    updatedAt: int,
    isPublished: bool)

  /** A row of the `ContactMessage` table. */
  datatype ContactMessage = ContactMessage(name: string, email: string, message: string, createdAt: int)

  /** `Article.CATEGORY_CHOICES`: stored value and display label. */
  const CategoryChoices: seq<(string, string)> :=
    [("finance", "Finance"), ("technology", "Technology"), ("real_estate", "Real Estate")]

  /** One keyword argument of an ORM `filter` or `get` call. */
  datatype Lookup = PublishedIs(flag: bool) | CategoryIs(category: string) | SlugIs(slug: string)

  predicate Holds(l: Lookup, a: Article)
  {
    match l
    case PublishedIs(flag) => a.isPublished == flag
    case CategoryIs(c) => a.category == c
    case SlugIs(s) => a.slug == s
  }

  /** An article satisfies every keyword of a filter call. */
  predicate MatchesAll(a: Article, lookups: seq<Lookup>)
  {
    forall i :: 0 <= i < |lookups| ==> Holds(lookups[i], a)
  }

  /** Filter calls with one or two keywords mean what they say. */
  lemma MatchesLiteral(l1: Lookup, l2: Lookup)
    ensures forall a :: MatchesAll(a, [l1]) <==> Holds(l1, a)
    ensures forall a :: MatchesAll(a, [l1, l2]) <==> Holds(l1, a) && Holds(l2, a)
  {
    forall a ensures MatchesAll(a, [l1]) <==> Holds(l1, a) {
      assert [l1][0] == l1;
    }
    forall a ensures MatchesAll(a, [l1, l2]) <==> Holds(l1, a) && Holds(l2, a) {
      assert [l1, l2][0] == l1;
      if Holds(l1, a) && Holds(l2, a) {
        forall i | 0 <= i < 2 ensures Holds([l1, l2][i], a) {
          if i == 1 { assert [l1, l2][i] == l2; }
        }
      }
      if MatchesAll(a, [l1, l2]) {
        assert Holds([l1, l2][1], a);
      }
    }
  }

  /** One more keyword in front of a filter call adds one more condition. */
  lemma MatchesCons(l: Lookup, lookups: seq<Lookup>)
    ensures forall a :: MatchesAll(a, [l] + lookups) <==> Holds(l, a) && MatchesAll(a, lookups)
  {
    forall a ensures MatchesAll(a, [l] + lookups) <==> Holds(l, a) && MatchesAll(a, lookups) {
      assert ([l] + lookups)[0] == l;
      assert forall i :: 0 <= i < |lookups| ==> ([l] + lookups)[i + 1] == lookups[i];
      if Holds(l, a) && MatchesAll(a, lookups) {
        forall i | 0 < i < |lookups| + 1 ensures Holds(([l] + lookups)[i], a) {
          assert ([l] + lookups)[i] == lookups[i - 1];
        }
      }
    }
  }

  /**
   * `a` is an order-preserving subsequence of `b` (greedy matching, which
   * finds an embedding whenever one exists).
   */
  predicate IsSubsequence(a: seq<Article>, b: seq<Article>)
    decreases |b|
  {
    if a == [] then true
    else if b == [] then false
    else if a[0] == b[0] then IsSubsequence(a[1..], b[1..])
    else IsSubsequence(a, b[1..])
  }

  /** The records are in newest-first order. */
  predicate NewestFirst(s: seq<Article>)
  {
    forall i, j :: 0 <= i < j < |s| ==> s[i].createdAt >= s[j].createdAt
  }

  /** No two records share a slug (`slug = SlugField(unique=True)`). */
  predicate UniqueSlugs(s: seq<Article>)
  {
    forall i, j :: 0 <= i < j < |s| ==> s[i].slug != s[j].slug
  }

  /** Putting the head of a newest-first queryset in front of records taken from its tail keeps the order. */
  lemma NewestFirstCons(qs: seq<Article>, rest: seq<Article>)
    requires qs != [] && NewestFirst(qs) && NewestFirst(rest)
    requires forall a :: a in rest ==> a in qs[1..]
    ensures NewestFirst([qs[0]] + rest)
  {
    var r := [qs[0]] + rest;
    forall i, j | 0 <= i < j < |r| ensures r[i].createdAt >= r[j].createdAt {
      if i == 0 {
        assert r[j] == rest[j - 1] && rest[j - 1] in qs[1..];
        var k :| 0 <= k < |qs[1..]| && qs[1..][k] == r[j];
        assert qs[k + 1] == r[j];
      } else {
        assert r[i] == rest[i - 1] && r[j] == rest[j - 1];
      }
    }
  }

  /**
   * `qs.filter(**lookups)`: the records that satisfy every lookup, in the
   * queryset's order.
   */
  function Filter(qs: seq<Article>, lookups: seq<Lookup>): (r: seq<Article>)
    ensures |r| <= |qs|
    ensures forall a :: a in r <==> a in qs && MatchesAll(a, lookups)
    ensures NewestFirst(qs) ==> NewestFirst(r)
  {
    if qs == [] then []
    else
      var rest := Filter(qs[1..], lookups);
      assert forall a :: a in qs[1..] ==> a in qs;
      if MatchesAll(qs[0], lookups) then
        var r := [qs[0]] + rest;
        assert NewestFirst(qs) ==> NewestFirst(r) by {
          if NewestFirst(qs) { NewestFirstCons(qs, rest); }
        }
        r
      else rest
  }

  /** `Article.objects.filter(is_published=True)`. */
  function Published(objects: seq<Article>): (r: seq<Article>)
    ensures forall a :: a in r <==> a in objects && a.isPublished
  {
    MatchesLiteral(PublishedIs(true), PublishedIs(true));
    Filter(objects, [PublishedIs(true)])
  }

  // ---------------------------------------------------------------------
  // Subsequences
  // ---------------------------------------------------------------------

  lemma {:induction false} SubsequenceDropHead(a: seq<Article>, b: seq<Article>)
    requires a != [] && IsSubsequence(a, b)
    ensures IsSubsequence(a[1..], b)
    decreases |b|
  {
    if a[0] == b[0] {
      SubsequenceExtend(a[1..], b);
    } else {
      SubsequenceDropHead(a, b[1..]);
      SubsequenceExtend(a[1..], b);
    }
  }

  lemma {:induction false} SubsequenceExtend(a: seq<Article>, b: seq<Article>)
    requires b != [] && IsSubsequence(a, b[1..])
    ensures IsSubsequence(a, b)
    decreases |b|, 0
  {
    if a != [] && a[0] == b[0] {
      SubsequenceDropHead(a, b[1..]);
    }
  }

  lemma {:induction false} SubsequenceReflexive(a: seq<Article>)
    ensures IsSubsequence(a, a)
  {
    if a != [] { SubsequenceReflexive(a[1..]); }
  }

  /** A prefix of a subsequence is a subsequence. */
  lemma {:induction false} SubsequencePrefix(a: seq<Article>, b: seq<Article>, n: nat)
    requires n <= |a| && IsSubsequence(a, b)
    ensures IsSubsequence(a[..n], b)
    decreases |b|
  {
    if n > 0 {
      if a[0] == b[0] {
        SubsequencePrefix(a[1..], b[1..], n - 1);
        assert a[..n][1..] == a[1..][..n - 1];
      } else {
        SubsequencePrefix(a, b[1..], n);
      }
    }
  }

  /** A filter keeps the order of the queryset it filters. */
  lemma {:induction false} FilterIsSubsequence(qs: seq<Article>, lookups: seq<Lookup>)
    ensures IsSubsequence(Filter(qs, lookups), qs)
  {
    if qs != [] {
      var rest := Filter(qs[1..], lookups);
      FilterIsSubsequence(qs[1..], lookups);
      if MatchesAll(qs[0], lookups) {
        assert ([qs[0]] + rest)[1..] == rest;
      } else {
        SubsequenceExtend(rest, qs);
      }
    }
  }

  /** Filters whose lookups agree on every record give the same queryset. */
  lemma {:induction false} FilterSameLookups(qs: seq<Article>, l1: seq<Lookup>, l2: seq<Lookup>)
    requires forall a :: MatchesAll(a, l1) <==> MatchesAll(a, l2)
    ensures Filter(qs, l1) == Filter(qs, l2)
  {
    if qs != [] {
      FilterSameLookups(qs[1..], l1, l2);
    }
  }

  /** Chaining `.filter(l1).filter(l2)` is one filter with both sets of keywords. */
  lemma {:induction false} FilterChain(qs: seq<Article>, l1: seq<Lookup>, l2: seq<Lookup>)
    ensures Filter(Filter(qs, l1), l2) == Filter(qs, l1 + l2)
  {
    assert forall a :: MatchesAll(a, l1 + l2) <==> MatchesAll(a, l1) && MatchesAll(a, l2) by {
      forall a ensures MatchesAll(a, l1 + l2) <==> MatchesAll(a, l1) && MatchesAll(a, l2) {
        if MatchesAll(a, l1) && MatchesAll(a, l2) {
          forall i | 0 <= i < |l1 + l2| ensures Holds((l1 + l2)[i], a) {
            if i >= |l1| { assert (l1 + l2)[i] == l2[i - |l1|]; }
          }
        }
        if MatchesAll(a, l1 + l2) {
          forall i | 0 <= i < |l2| ensures Holds(l2[i], a) {
            assert (l1 + l2)[|l1| + i] == l2[i];
          }
          forall i | 0 <= i < |l1| ensures Holds(l1[i], a) {
            assert (l1 + l2)[i] == l1[i];
          }
        }
      }
    }
    if qs != [] {
      FilterChain(qs[1..], l1, l2);
      if MatchesAll(qs[0], l1) {
        assert Filter(qs, l1) == [qs[0]] + Filter(qs[1..], l1);
        assert Filter(qs, l1)[1..] == Filter(qs[1..], l1);
      }
    }
  }

  /** On records with distinct slugs, a filter on the slug keeps at most one. */
  lemma {:induction false} FilterUniqueSlug(qs: seq<Article>, lookups: seq<Lookup>, slug: string)
    requires UniqueSlugs(qs)
    requires |lookups| > 0 && lookups[0] == SlugIs(slug)
    ensures |Filter(qs, lookups)| <= 1
  {
    if qs != [] {
      assert UniqueSlugs(qs[1..]) by {
        forall i, j | 0 <= i < j < |qs[1..]| ensures qs[1..][i].slug != qs[1..][j].slug {
          assert qs[1..][i] == qs[i + 1] && qs[1..][j] == qs[j + 1];
        }
      }
      FilterUniqueSlug(qs[1..], lookups, slug);
      if MatchesAll(qs[0], lookups) {
        assert Holds(lookups[0], qs[0]);
        forall b | b in qs[1..] ensures !MatchesAll(b, lookups) {
          var k :| 0 <= k < |qs[1..]| && qs[1..][k] == b;
          assert qs[k + 1] == b;
        }
        FilterNoMatch(qs[1..], lookups);
      }
    }
  }

  /** A filter that no record satisfies gives the empty queryset. */
  lemma {:induction false} FilterNoMatch(qs: seq<Article>, lookups: seq<Lookup>)
    requires forall a :: a in qs ==> !MatchesAll(a, lookups)
    ensures Filter(qs, lookups) == []
  {
    if qs != [] {
      assert qs[0] in qs;
      FilterNoMatch(qs[1..], lookups);
    }
  }

  // ---------------------------------------------------------------------
  // home
  // ---------------------------------------------------------------------

  /** The number of articles on the home page. */
  const HomeLimit: nat := 5

  /** `home`: `Article.objects.filter(is_published=True)[:5]`. */
  function Home(objects: seq<Article>): (latest: seq<Article>)
    ensures latest <= Published(objects)
    ensures |latest| == if |Published(objects)| < HomeLimit then |Published(objects)| else HomeLimit
    ensures forall a :: a in latest ==> a in objects && a.isPublished
  {
    var published := Published(objects);
    if |published| <= HomeLimit then published else published[..HomeLimit]
  }

  /** The home page keeps the newest-first order of the manager. */
  lemma HomeNewestFirst(objects: seq<Article>)
    requires NewestFirst(objects)
    ensures NewestFirst(Home(objects))
  {
    var p := Published(objects);
    assert NewestFirst(p);
    var h := Home(objects);
    assert forall i :: 0 <= i < |h| ==> h[i] == p[i];
  }

  /** The home page articles appear in the order of the full table. */
  lemma HomeIsSubsequence(objects: seq<Article>)
    ensures IsSubsequence(Home(objects), objects)
  {
    var p := Published(objects);
    FilterIsSubsequence(objects, [PublishedIs(true)]);
    SubsequencePrefix(p, objects, |Home(objects)|);
  }

  /** The home page is the published list when that has at most five articles. */
  lemma HomeShowsAllWhenFew(objects: seq<Article>)
    requires |Published(objects)| <= HomeLimit
    ensures Home(objects) == Published(objects)
  {
  }

  // ---------------------------------------------------------------------
  // article_list
  // ---------------------------------------------------------------------

  /** The category filter a URL slug selects: stored value and display label. */
  datatype CategoryFilter = CategoryFilter(category: string, displayName: string)

  /** The `if`/`elif` chain on `category_slug`; any other slug selects nothing. */
  function CategoryForSlug(categorySlug: Option<string>): (f: Option<CategoryFilter>)
    ensures f.Some? ==> (f.value.category, f.value.displayName) in CategoryChoices
  {
    if categorySlug == Some("finance") then Some(CategoryFilter("finance", "Finance"))
    else if categorySlug == Some("technology") then Some(CategoryFilter("technology", "Technology"))
    else if categorySlug == Some("real-estate") then Some(CategoryFilter("real_estate", "Real Estate"))
    else None
  }

  /** The context `article_list` renders. */
  datatype ArticleListPage = ArticleListPage(articles: seq<Article>, categoryLabel: string)

  /** `article_list`: the published articles, narrowed to a category when the slug names one. */
  function ArticleList(objects: seq<Article>, categorySlug: Option<string>): (page: ArticleListPage)
    ensures forall a :: a in page.articles ==> a in objects && a.isPublished
    ensures IsSubsequence(page.articles, objects)
    ensures IsSubsequence(page.articles, Published(objects))
    ensures CategoryForSlug(categorySlug).None? ==>
      page.articles == Published(objects) && page.categoryLabel == "All"
    ensures CategoryForSlug(categorySlug).Some? ==>
      var f := CategoryForSlug(categorySlug).value;
      && page.categoryLabel == f.displayName
      && forall a :: a in page.articles <==> a in Published(objects) && a.category == f.category
  {
    var qs := Published(objects);
    FilterIsSubsequence(objects, [PublishedIs(true)]);
    match CategoryForSlug(categorySlug)
    case None =>
      SubsequenceReflexive(qs);
      ArticleListPage(qs, "All")
    case Some(f) =>
      var narrowed := Filter(qs, [CategoryIs(f.category)]);
      MatchesLiteral(CategoryIs(f.category), CategoryIs(f.category));
      FilterIsSubsequence(qs, [CategoryIs(f.category)]);
      FilterChain(objects, [PublishedIs(true)], [CategoryIs(f.category)]);
      FilterIsSubsequence(objects, [PublishedIs(true)] + [CategoryIs(f.category)]);
      ArticleListPage(narrowed, f.displayName)
  }

  /** Exactly the three URL slugs select a category, with these values and labels. */
  lemma CategorySlugs(categorySlug: Option<string>)
    ensures CategoryForSlug(Some("finance")) == Some(CategoryFilter("finance", "Finance"))
    ensures CategoryForSlug(Some("technology")) == Some(CategoryFilter("technology", "Technology"))
    ensures CategoryForSlug(Some("real-estate")) == Some(CategoryFilter("real_estate", "Real Estate"))
    ensures CategoryForSlug(categorySlug).Some? <==>
      categorySlug in {Some("finance"), Some("technology"), Some("real-estate")}
  {
  }

  /** Any slug other than the three known ones, or none at all, shows every published article. */
  lemma OtherSlugShowsAll(objects: seq<Article>, categorySlug: Option<string>)
    requires categorySlug !in {Some("finance"), Some("technology"), Some("real-estate")}
    ensures ArticleList(objects, categorySlug) == ArticleListPage(Published(objects), "All")
  {
    CategorySlugs(categorySlug);
  }

  /** The stored spelling `real_estate`, a missing slug or an unknown one all show everything. */
  lemma UnknownSlugShowsAll(objects: seq<Article>)
    ensures ArticleList(objects, None) == ArticleListPage(Published(objects), "All")
    ensures ArticleList(objects, Some("real_estate")) == ArticleListPage(Published(objects), "All")
    ensures ArticleList(objects, Some("trade")) == ArticleListPage(Published(objects), "All")
  {
    assert "real_estate" != "real-estate" by { assert "real_estate"[4] != "real-estate"[4]; }
    OtherSlugShowsAll(objects, None);
    OtherSlugShowsAll(objects, Some("real_estate"));
    OtherSlugShowsAll(objects, Some("trade"));
  }

  /** A category page keeps the newest-first order of the manager. */
  lemma ArticleListNewestFirst(objects: seq<Article>, categorySlug: Option<string>)
    requires NewestFirst(objects)
    ensures NewestFirst(ArticleList(objects, categorySlug).articles)
  {
  }

  // ---------------------------------------------------------------------
  // article_detail
  // ---------------------------------------------------------------------

  /** The outcome of `get_object_or_404(Article, slug=slug, is_published=True)`. */
  datatype Detail = Found(article: Article) | NotFound | MultipleObjectsReturned

  /** `article_detail`: the one published article with that slug, else a 404. */
  function ArticleDetail(objects: seq<Article>, slug: string): (d: Detail)
    ensures d.Found? ==> d.article in objects && d.article.slug == slug && d.article.isPublished
    ensures d == NotFound <==> forall a :: a in objects && a.slug == slug ==> !a.isPublished
  {
    var matches := Filter(objects, [SlugIs(slug), PublishedIs(true)]);
    MatchesLiteral(SlugIs(slug), PublishedIs(true));
    if |matches| == 0 then NotFound
    else
      assert matches[0] in matches;
      if |matches| == 1 then Found(matches[0]) else MultipleObjectsReturned
  }

  /**
   * With unique slugs the lookup finds an article exactly when it is the
   * published article with that slug, and never finds two.
   */
  lemma DetailFindsPublished(objects: seq<Article>, slug: string, a: Article)
    requires UniqueSlugs(objects)
    ensures ArticleDetail(objects, slug) != MultipleObjectsReturned
    ensures ArticleDetail(objects, slug) == Found(a) <==> a in objects && a.slug == slug && a.isPublished
  {
    var lookups := [SlugIs(slug), PublishedIs(true)];
    FilterUniqueSlug(objects, lookups, slug);
    MatchesLiteral(SlugIs(slug), PublishedIs(true));
    var matches := Filter(objects, lookups);
    if a in objects && a.slug == slug && a.isPublished {
      assert a in matches;
      assert matches == [matches[0]];
    }
  }

  /**
   * The detail view sees only published articles: hiding every unpublished
   * record changes nothing, so a missing slug and an unpublished article
   * give the same 404.
   */
  lemma DetailHidesUnpublished(objects: seq<Article>, slug: string)
    ensures ArticleDetail(objects, slug) == ArticleDetail(Published(objects), slug)
  {
    var lookups := [SlugIs(slug), PublishedIs(true)];
    FilterChain(objects, [PublishedIs(true)], lookups);
    MatchesLiteral(SlugIs(slug), PublishedIs(true));
    MatchesCons(PublishedIs(true), lookups);
    FilterSameLookups(objects, [PublishedIs(true)] + lookups, lookups);
  }

  /** An unpublished article is answered with the same 404 as a slug that does not exist. */
  lemma UnpublishedLooksMissing(objects: seq<Article>, a: Article)
    requires UniqueSlugs(objects) && a in objects && !a.isPublished
    ensures ArticleDetail(objects, a.slug) == NotFound
  {
    forall b | b in objects && b.slug == a.slug ensures !b.isPublished {
      var i :| 0 <= i < |objects| && objects[i] == a;
      var j :| 0 <= j < |objects| && objects[j] == b;
      assert i == j;
    }
  }

  // ---------------------------------------------------------------------
  // contact
  // ---------------------------------------------------------------------

  /**
   * The contact form's cleaned `name`, `email` and `message` fields, the
   * values `form.save()` stores (Django's CharFields strip surrounding
   * whitespace while cleaning).
   */
  datatype ContactSubmission = ContactSubmission(name: string, email: string, message: string)

  /** `contact_thanks.html`, or `contact.html` with a bound (POSTed) or an empty form. */
  datatype ContactPage = ThanksPage | FormPage(bound: bool)

  /** The page rendered and the `ContactMessage` table afterwards. */
  datatype ContactOutcome = ContactOutcome(page: ContactPage, messages: seq<ContactMessage>)

  /**
   * `contact`: a valid POST saves one message (stamped `now`) and thanks
   * the sender; an invalid POST re-renders the bound form; any other method
   * renders an empty form. Whether the form is valid is left abstract.
   */
  function Contact(httpMethod: string, posted: ContactSubmission, isValid: bool, now: int,
                   messages: seq<ContactMessage>): (out: ContactOutcome)
    ensures messages <= out.messages && |out.messages| <= |messages| + 1
    ensures out.page == ThanksPage <==> |out.messages| == |messages| + 1
    ensures out.page == ThanksPage <==> httpMethod == "POST" && isValid
    ensures out.page == ThanksPage ==>
      out.messages[|messages|] == ContactMessage(posted.name, posted.email, posted.message, now)
    ensures out.page.FormPage? ==> out.page.bound == (httpMethod == "POST")
  {
    if httpMethod == "POST" then
      if isValid then
        ContactOutcome(ThanksPage, messages + [ContactMessage(posted.name, posted.email, posted.message, now)])
      else
        ContactOutcome(FormPage(true), messages)
    else
      ContactOutcome(FormPage(false), messages)
  }

  /** A GET never writes, whatever was posted before. */
  lemma ContactGetWritesNothing(posted: ContactSubmission, isValid: bool, now: int, messages: seq<ContactMessage>)
    ensures Contact("GET", posted, isValid, now, messages) == ContactOutcome(FormPage(false), messages)
  {
  }
}
