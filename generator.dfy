/**
  The all-articles aggregation of the JSON feed generator: the site's articles
  followed by every article's translations, stable-sorted newest first.
 */
module Generator {

  /** An article as the aggregation sees it: its date, as an instant on one
      time line, and its translations. */
  datatype Article = Article(slug: string, date: int, translations: seq<Article>)

  /** The translations of `articles`, in the order the extending loop appends them. */
  function Translations(articles: seq<Article>): seq<Article>
  {
    if articles == [] then []
    else Translations(articles[..|articles| - 1]) + articles[|articles| - 1].translations
  }

  /** `sum(len(a.translations) for a in articles)` */
  function TranslationCount(articles: seq<Article>): nat
  {
    if articles == [] then 0 else |articles[0].translations| + TranslationCount(articles[1..])
  }

  lemma {:induction false} TranslationCountAppend(articles: seq<Article>, a: Article)
    ensures TranslationCount(articles + [a]) == TranslationCount(articles) + |a.translations|
  {
    if articles != [] {
      assert (articles + [a])[1..] == articles[1..] + [a];
      TranslationCountAppend(articles[1..], a);
    }
  }

  /** The loop appends exactly one entry per translation. */
  lemma {:induction false} TranslationsLength(articles: seq<Article>)
    ensures |Translations(articles)| == TranslationCount(articles)
    decreases |articles|
  {
    if articles != [] {
      var init := articles[..|articles| - 1];
      var last := articles[|articles| - 1];
      assert articles == init + [last];
      TranslationsLength(init);
      TranslationCountAppend(init, last);
    }
  }

  /** Dates never increase along `s`. */
  predicate SortedByDateDesc(s: seq<Article>) {
    forall i, j :: 0 <= i < j < |s| ==> s[i].date >= s[j].date
  }

  /** The articles of `s` dated `k`, in their order in `s`. */
  function WithDate(s: seq<Article>, k: int): (r: seq<Article>)
    ensures forall a :: a in r ==> a.date == k
  {
    if s == [] then []
    else if s[0].date == k then [s[0]] + WithDate(s[1..], k)
    else WithDate(s[1..], k)
  }

  /** Places `x` before the first element of `s` that is not newer than it. */
  function Insert(x: Article, s: seq<Article>): (r: seq<Article>)
    ensures |r| == |s| + 1
    ensures multiset(r) == multiset(s) + multiset{x}
    ensures r[0] == x || (s != [] && r[0] == s[0])
    ensures forall y :: y in r ==> y == x || y in s
  {
    if s == [] then [x]
    else if s[0].date <= x.date then [x] + s
    else
      assert s == [s[0]] + s[1..];
      [s[0]] + Insert(x, s[1..])
  }

  /** `list.sort(key=attrgetter('date'), reverse=True)`: a stable sort, newest first. */
  function SortByDateDesc(s: seq<Article>): (r: seq<Article>)
    ensures |r| == |s|
    ensures multiset(r) == multiset(s)
  {
    if s == [] then []
    else
      assert s == [s[0]] + s[1..];
      Insert(s[0], SortByDateDesc(s[1..]))
  }

  lemma {:induction false} InsertSorted(x: Article, s: seq<Article>)
    requires SortedByDateDesc(s)
    ensures SortedByDateDesc(Insert(x, s))
  {
    if s != [] && s[0].date > x.date {
      var t := Insert(x, s[1..]);
      InsertSorted(x, s[1..]);
      forall y | y in t
        ensures y.date <= s[0].date
      {
        if y != x {
          var j :| 0 <= j < |s[1..]| && s[1..][j] == y;
          assert s[j + 1] == y;
        }
      }
      forall i, j | 0 <= i < j < |[s[0]] + t|
        ensures ([s[0]] + t)[i].date >= ([s[0]] + t)[j].date
      {
        if i == 0 {
          assert ([s[0]] + t)[j] in t;
        } else {
          assert ([s[0]] + t)[i] == t[i - 1] && ([s[0]] + t)[j] == t[j - 1];
        }
      }
    }
  }

  /** The sorted list is ordered by date, newest first. */
  lemma {:induction false} SortSorted(s: seq<Article>)
    ensures SortedByDateDesc(SortByDateDesc(s))
  {
    if s != [] {
      SortSorted(s[1..]);
      InsertSorted(s[0], SortByDateDesc(s[1..]));
    }
  }

  /** Inserting `x` cannot reorder the articles of any one date. */
  lemma {:induction false} InsertWithDate(x: Article, s: seq<Article>, k: int)
    ensures WithDate(Insert(x, s), k) == if x.date == k then [x] + WithDate(s, k) else WithDate(s, k)
  {
    if s == [] {
      assert WithDate([x], k) == (if x.date == k then [x] else []) + WithDate([], k);
    } else if s[0].date <= x.date {
      assert ([x] + s)[1..] == s;
    } else {
      assert ([s[0]] + Insert(x, s[1..]))[1..] == Insert(x, s[1..]);
      InsertWithDate(x, s[1..], k);
    }
  }

  /** Stability: the articles of each date keep their relative order. */
  lemma {:induction false} SortStable(s: seq<Article>, k: int)
    ensures WithDate(SortByDateDesc(s), k) == WithDate(s, k)
  {
    if s != [] {
      SortStable(s[1..], k);
      InsertWithDate(s[0], SortByDateDesc(s[1..]), k);
    }
  }

  /** `all_articles = list(articles)`, extended by every article's translations,
      then sorted by date, newest first. */
  method AllArticles(articles: seq<Article>) returns (all: seq<Article>)
    ensures |all| == |articles| + TranslationCount(articles)
    ensures multiset(all) == multiset(articles + Translations(articles))
    ensures SortedByDateDesc(all)
    ensures forall k :: WithDate(all, k) == WithDate(articles + Translations(articles), k)
  {
    all := articles;
    var i := 0;
    while i < |articles|
      invariant 0 <= i <= |articles|
      invariant all == articles + Translations(articles[..i])
    {
      assert articles[..i + 1][..i] == articles[..i];
      all := all + articles[i].translations;
      i := i + 1;
    }
    assert articles[..i] == articles;
    TranslationsLength(articles);
    var unsorted := all;
    all := SortByDateDesc(all);
    SortSorted(unsorted);
    forall k
      ensures WithDate(all, k) == WithDate(unsorted, k)
    {
      SortStable(unsorted, k);
    }
  }
}
