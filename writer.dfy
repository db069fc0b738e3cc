/**
  The JSON feed writer's feed factory: a non-JSON feed type goes to the host
  writer untouched; a JSON feed gets the site name, optionally qualified, as its
  title and the site's metadata as its top-level fields.
 */
module Writer {
  import opened Values
  import opened Feed

  const SEPARATOR := " - "

  /** `context['SITENAME'] + ' - ' + feed_title` when `feed_title` is truthy, else
      `context['SITENAME']`. */
  function ComposeTitle(context: map<string, Value>, feedTitle: Value): (r: Result<Value>)
    ensures "SITENAME" !in context ==> r == Err(KeyError("SITENAME"))
    ensures "SITENAME" in context && !Truthy(feedTitle) ==> r == Ok(context["SITENAME"])
  {
    if "SITENAME" !in context then Err(KeyError("SITENAME"))
    else if Truthy(feedTitle) then
      match Add(context["SITENAME"], Str(SEPARATOR))
      case Err(e) => Err(e)
      case Ok(prefix) => Add(prefix, feedTitle)
    else Ok(context["SITENAME"])
  }

  /** A qualified title is the site name, the separator and the qualifier, in that order. */
  lemma QualifiedTitle(context: map<string, Value>, feedTitle: Value)
    requires "SITENAME" in context && context["SITENAME"].Str?
    requires feedTitle.Str? && Truthy(feedTitle)
    ensures ComposeTitle(context, feedTitle).Ok?
    ensures var t := ComposeTitle(context, feedTitle).value;
      var site := context["SITENAME"].s;
      && t.Str?
      && |t.s| == |site| + 3 + |feedTitle.s|
      && t.s[..|site|] == site
      && t.s[|site|..|site| + 3] == " - "
      && t.s[|site| + 3..] == feedTitle.s
  {
    var site := context["SITENAME"].s;
    var t := site + SEPARATOR + feedTitle.s;
    assert t[..|site|] == site;
    assert t[|site|..|site| + 3] == SEPARATOR;
    assert t[|site| + 3..] == feedTitle.s;
  }

  /** Composing the title raises exactly when the site name is missing, or when a
      qualifier is given and the site name or the qualifier is not a string. */
  lemma TitleFailsIff(context: map<string, Value>, feedTitle: Value)
    ensures ComposeTitle(context, feedTitle).Err? <==>
      || "SITENAME" !in context
      || (Truthy(feedTitle) && !(context["SITENAME"].Str? && feedTitle.Str?))
    ensures "SITENAME" in context && Truthy(feedTitle) && !context["SITENAME"].Str? ==>
      ComposeTitle(context, feedTitle) == Err(TypeError(context["SITENAME"], Str(" - ")))
    ensures "SITENAME" in context && Truthy(feedTitle) && context["SITENAME"].Str?
            && !feedTitle.Str? ==>
      ComposeTitle(context, feedTitle)
        == Err(TypeError(Str(context["SITENAME"].s + " - "), feedTitle))
  {
  }

  /** The keyword arguments the writer hands to the feed. */
  function FeedArgs(context: map<string, Value>, siteUrl: string, feedUrl: Value)
    : (r: map<string, Value>)
    ensures r.Keys == {"link", "feed_url", "author", "favicon", "icon", "description"}
    ensures Truthy(r["link"])
    ensures "SITESUBTITLE" !in context ==> !Truthy(r["description"])
  {
    map[
      "link" := Str(siteUrl + "/"),
      "feed_url" := feedUrl,
      "author" := Get(context, "AUTHOR"),
      "favicon" := Get(context, "FAVICON"),
      "icon" := Get(context, "SITELOGO"),
      "description" := GetOr(context, "SITESUBTITLE", Str(""))
    ]
  }

  /** The site URL with a trailing slash is always the home page, since it is never empty. */
  lemma HomePageAlwaysSet(title: Value, context: map<string, Value>, siteUrl: string,
                          feedUrl: Value, markup: Markup)
    ensures var r := Enriched(Skeleton(title), TOP_LEVEL_TRANS, FeedArgs(context, siteUrl, feedUrl), markup);
      r.Ok? && "home_page_url" in r.value && r.value["home_page_url"] == Str(siteUrl + "/")
  {
    TopLevelEntry(title, FeedArgs(context, siteUrl, feedUrl), markup, 0);
  }

  /** The description is the stripped site subtitle, and there is none when the
      subtitle is missing or empty. */
  lemma DescriptionFromSubtitle(title: Value, context: map<string, Value>, siteUrl: string,
                                feedUrl: Value, markup: Markup)
    ensures var r := Enriched(Skeleton(title), TOP_LEVEL_TRANS, FeedArgs(context, siteUrl, feedUrl), markup);
      var sub := GetOr(context, "SITESUBTITLE", Str(""));
      && r.Ok?
      && ("description" in r.value <==> Truthy(sub))
      && ("SITESUBTITLE" !in context ==> "description" !in r.value)
      && (Truthy(sub) ==> r.value["description"] == Str(markup.stripTags(markup.wrap(sub))))
  {
    TopLevelEntry(title, FeedArgs(context, siteUrl, feedUrl), markup, 2);
  }

  /** The author, when the site has a truthy one, is `{'name': str(Markup(author))}`. */
  lemma AuthorFromContext(title: Value, context: map<string, Value>, siteUrl: string,
                          feedUrl: Value, markup: Markup)
    ensures var r := Enriched(Skeleton(title), TOP_LEVEL_TRANS, FeedArgs(context, siteUrl, feedUrl), markup);
      var author := Get(context, "AUTHOR");
      && r.Ok?
      && ("author" in r.value <==> Truthy(author))
      && (Truthy(author) ==> r.value["author"] == Dict(map["name" := Str(markup.wrap(author))]))
  {
    TopLevelEntry(title, FeedArgs(context, siteUrl, feedUrl), markup, 5);
  }

  /** The feed URL, favicon and icon are copied as they are, each only when truthy. */
  lemma CopiedFromContext(title: Value, context: map<string, Value>, siteUrl: string,
                          feedUrl: Value, markup: Markup)
    ensures var r := Enriched(Skeleton(title), TOP_LEVEL_TRANS, FeedArgs(context, siteUrl, feedUrl), markup);
      && r.Ok?
      && ("feed_url" in r.value <==> Truthy(feedUrl))
      && (Truthy(feedUrl) ==> r.value["feed_url"] == feedUrl)
      && ("favicon" in r.value <==> Truthy(Get(context, "FAVICON")))
      && (Truthy(Get(context, "FAVICON")) ==> r.value["favicon"] == Get(context, "FAVICON"))
      && ("icon" in r.value <==> Truthy(Get(context, "SITELOGO")))
      && (Truthy(Get(context, "SITELOGO")) ==> r.value["icon"] == Get(context, "SITELOGO"))
  {
    var kwargs := FeedArgs(context, siteUrl, feedUrl);
    TopLevelEntry(title, kwargs, markup, 1);
    TopLevelEntry(title, kwargs, markup, 3);
    TopLevelEntry(title, kwargs, markup, 4);
  }

  /** What `_create_new_feed` returns: the host writer's feed for a non-JSON type,
      else a JSON feed. */
  datatype NewFeed =
    | Native(feedType: string, feedTitle: Value, context: map<string, Value>)
    | Json(feed: JSONFeed)

  class JSONFeedWriter {
    var siteUrl: string
    var feedUrl: Value

    constructor (siteUrl: string, feedUrl: Value)
      ensures this.siteUrl == siteUrl && this.feedUrl == feedUrl
    {
      this.siteUrl := siteUrl;
      this.feedUrl := feedUrl;
    }

    /** `_create_new_feed(feed_type, feed_title, context)` */
    method CreateNewFeed(feedType: string, feedTitle: Value, context: map<string, Value>,
                         markup: Markup)
      returns (r: Result<NewFeed>)
      ensures feedType != "json" ==> r == Ok(Native(feedType, feedTitle, context))
      ensures feedType == "json" ==>
        match ComposeTitle(context, feedTitle)
        case Err(e) => r == Err(e)
        case Ok(t) =>
          && r.Ok? && r.value.Json? && fresh(r.value.feed)
          && r.value.feed.Valid() && r.value.feed.markup == markup
          && r.value.feed.Items() == []
          && var title := Str(markup.stripTags(markup.wrap(t)));
             r.value.feed.feed["title"] == title
             && Enriched(Skeleton(title), TOP_LEVEL_TRANS, FeedArgs(context, siteUrl, feedUrl), markup)
                == Ok(r.value.feed.feed)
    {
      if feedType != "json" {
        return Ok(Native(feedType, feedTitle, context));
      }
      var composed := ComposeTitle(context, feedTitle);
      if composed.Err? {
        return Err(composed.error);
      }
      var title := Str(markup.stripTags(markup.wrap(composed.value)));
      var feed := new JSONFeed(title, FeedArgs(context, siteUrl, feedUrl), markup);
      return Ok(Json(feed));
    }
  }
}
