# pelican_json_feed in Dafny

A model of the Pelican JSON Feed plugin (`json_feed.py`), covering:

- **`JSONFeed` record builder.**
  - There are two translation tables. Each row maps a keyword name to a target key, with an optional `tr` transform or a `date` flag.
  - The remapper `_enrich_dict` walks a table in its insertion order. For each keyword value that is present and truthy, it writes that value into a dictionary under the row's target key, transformed or formatted as the row says.
  - A feed starts as `{version, title, items: []}` and is enriched with the top-level metadata.
  - `add_item` enriches `{'id': unique_id}` with the item table and appends the result to `items`.
- **The date branch.**
  - A datetime is rendered as `strftime("%Y-%m-%dT%H:%M:%S")`.
  - That is followed by the `%z` offset with a colon spliced in before its last two characters.
  - A naive date gets `-00:00` instead.
- **The all-articles aggregation.** The site's articles are extended by each article's translations, then stable-sorted by date, newest first.
- **`_create_new_feed`.**
  - The JSON feed's title is `SITENAME + ' - ' + feed_title` when a qualifier is given, else `SITENAME`.
  - The title is stripped of tags. The site metadata becomes the keyword arguments.
  - A non-JSON feed type goes straight to the host writer.

The modules are:

- `timestamp.dfy` (`Timestamp`): datetimes as records of fields, with zero-padded field formatting and the offset splice.
- `values.dfy` (`Values`): the loosely-typed Python values the code moves around. This covers truthiness, `dict.get` and string `+`, plus the exceptions the modelled code can raise (`KeyError`, `AttributeError`, `TypeError`, and the `ValueError` that `%z` raises for an offset of a day or more).
- `json_feed.dfy` (`Feed`):
  - the tables and the remapper;
  - the function `Enriched`, which says what the remapper leaves in the dictionary or which exception it raises;
  - the class `JSONFeed`. Its `feed` field is updated in place by the constructor and by `AddItem`. The static method `EnrichDict` is the remapper's loop, proved equal to `Enriched`.
- `generator.dfy` (`Generator`): the aggregation loop and Python's stable `list.sort(key=date, reverse=True)`. The sort is given as a reference insertion sort, and proved sorted, a permutation and stable.
- `writer.dfy` (`Writer`): the title composition and the keyword arguments handed to the feed. It also holds the class `JSONFeedWriter`, whose `CreateNewFeed` allocates the `JSONFeed`.

**Opaque library code.** `Markup(value)` and `Markup.striptags` are jinja2 library code. They are opaque functions, carried in a `Markup` value. The two `tr` lambdas are modelled exactly, on the text `Markup(value)` yields.

**Which Python.** The model follows Python 3.7 and later:
- dictionaries iterate in insertion order;
- `%z` prints a seconds part when the offset has one;
- `str()` of any text succeeds.

The source also carries a Python 2 idiom, `from __future__ import unicode_literals` at json_feed.py:9. Where Python 2 would behave differently, "## Left out" says so.

**Tags.**
- The code applies `lambda c: [str(t) for t in c]` to `Markup(value)` (json_feed.py:33, 52-53).
- `Markup` of a list of tags is a single string, so the lambda iterates over that string's characters.
- The stored `tags` list therefore holds one-character strings, not the tag names.
- The model follows the code: `Feed.ItemTags` states that the stored list is the one-character strings of the Markup text, in order.

## Model

| member | source | states |
|---|---|---|
| Timestamp.Strftime | json_feed.py:64 | definition: `%Y-%m-%dT%H:%M:%S` as the zero-padded fields joined by the separators; its layout is stated by `Timestamp.StrftimeLayout` |
| Timestamp.StrftimeZ | json_feed.py:59 | definition, defined only for an offset strictly within a day (`ZoneInRange`; any other offset makes `%z` raise, see `Feed.Translate`): `%z` is empty when the tzinfo gives no offset, else the sign, two-digit hours and minutes of the offset's magnitude, and two-digit seconds only when there are any |
| Timestamp.ZoneSuffix | json_feed.py:57-63 | definition: `-00:00` for a naive date, else the `%z` text with the colon spliced in |
| Timestamp.FormatDate | json_feed.py:64 | definition: the strftime text followed by the zone suffix; stated by `Timestamp.NaiveDateSuffix` and `Timestamp.AwareDateSuffix` |
| Timestamp.PadRoundTrip | json_feed.py:64 | a zero-padded field is all digits and reads back as the number; it is at least `width` long, and exactly `width` long when the number fits |
| Timestamp.StrftimeLayout | json_feed.py:64 | for a datetime in range, the `%Y-%m-%dT%H:%M:%S` text is 19 characters; separators sit at positions 4, 7, 10, 13 and 16; each field reads back as its value |
| Timestamp.InsertColon | json_feed.py:60 | `tz[:-2] + ':' + tz[-2:]` is one longer than `tz`; for `tz` of length two or more, the colon sits before the last two characters and removing it gives `tz` back; for shorter `tz`, the colon is prepended |
| Timestamp.NaiveDateSuffix | json_feed.py:61-64 | a naive date renders as its 19-character strftime text followed by exactly `-00:00` |
| Timestamp.AwareDateSuffix | json_feed.py:57-64 | an aware date renders as its strftime text followed by its `%z` text with a colon inserted before the last two characters |
| Timestamp.MinuteOffsetSuffix | json_feed.py:57-60 | a whole-minute offset under a day gives `±HH:MM`: sign of the offset, hours below 24, minutes below 60, and the signed value recombines to the offset |
| Timestamp.SecondsOffsetSuffix | json_feed.py:57-60 | an offset with a seconds part under a day gives `±HHMM:SS`: the offset's sign, then hours below 24 and minutes below 60, then the colon, then nonzero seconds below 60; the signed value recombines to the offset |
| Timestamp.UnknownOffsetSuffix | json_feed.py:57-64 | a tzinfo without an offset makes `%z` empty, so the suffix is a lone colon |
| Timestamp.TwoHoursEastExample | json_feed.py:59-60 | an offset of +2 hours renders `%z` as `+0200` and the suffix as `+02:00` |
| Timestamp.NaiveNewYearExample | json_feed.py:61-64 | the naive date 2020-01-01 00:00:00 renders as `2020-01-01T00:00:00-00:00` |
| Values.Truthy | json_feed.py:44 | definition: Python's `bool()`, false for None, False, zero and empty str, list and dict; true for a datetime and a host object |
| Values.Add | json_feed.py:146 | string `+` succeeds exactly on two strings, giving the left text followed by the right text; otherwise it raises `TypeError` naming both operands |
| Feed.TopLevelTargets | json_feed.py:21-26 | the top-level table targets exactly `home_page_url`, `feed_url`, `description`, `favicon`, `icon` and `author`, so never `version`, `title` or `items` |
| Feed.ItemsTargets | json_feed.py:27-34 | the item table targets exactly `url`, `title`, `content_html`, `description`, `date_published`, `date_modified`, `tags` and `author`, so never `id` |
| Feed.ApplyTransform | json_feed.py:23-26 | definition of the `tr` transforms on the Markup text: `striptags`, `{'name': str(n)}`, and the list of one-character strings (json_feed.py:30-34 is the item table's copy) |
| Feed.Translate | json_feed.py:50-67 | a row's translation raises exactly for a date row whose value is not a datetime, or is a datetime whose offset is a day or more; the first raises `AttributeError` on `tzinfo`, the second `ValueError`; a row without `tr` or `date` stores the value unchanged |
| Feed.DayOffsetRaises | json_feed.py:57-67 | a datetime whose tzinfo is exactly one day east of UTC makes the date branch raise `ValueError` |
| Feed.Enriched | json_feed.py:41-68 | on success the enriched dictionary keeps every key it started with; the remapper's other properties are stated by the lemmas below |
| Feed.WrittenAreTargets | json_feed.py:43-68 | the remapper only writes keys that some table row targets |
| Feed.WrittenKeysAt | json_feed.py:43-68 | a key is among the written keys exactly when some entry targeting it has a truthy keyword value |
| Feed.EnrichedKeys | json_feed.py:41-68 | on success, the result's keys are the old keys plus the targets of the truthy entries; every old key not written keeps its value |
| Feed.UntargetedKept | json_feed.py:41-68 | a key of the dictionary that no entry targets survives enriching with its value |
| Feed.TruthyEntryWritten | json_feed.py:48-68 | with distinct targets, a truthy entry translates without error and its target key holds the translated value |
| Feed.FalsyEntryAbsent | json_feed.py:43-45 | with distinct targets, a missing or falsy entry adds nothing, not even null: its key is present afterwards only if it was before, with the old value |
| Feed.EnrichedFailsIff | json_feed.py:49-67 | the remapper raises exactly when some truthy entry cannot be translated |
| Feed.EnrichedFirstError | json_feed.py:43-67 | when it raises, the exception is that of the first failing entry in table order |
| Feed.TopLevelNeverFails | json_feed.py:21-26 | the top-level table has no date row, so enriching with it never raises |
| Feed.OnlyDatesFail | json_feed.py:50-67 | a row raises only if it is a date row, and a date row raises exactly when its argument is truthy but not a formattable datetime |
| Feed.ItemsFailIff | json_feed.py:54-67 | enriching an item raises exactly when a truthy `pubdate` or `updateddate` is not a datetime, or is one whose offset is a day or more; the error is `AttributeError` or `ValueError` accordingly, and `pubdate`'s when both are bad |
| Feed.SkeletonKept | json_feed.py:37-39 | enriching the new feed keeps `version` as the JSON Feed version URL, the given title, and the empty `items` |
| Feed.IdKept | json_feed.py:71-72 | enriching an item keeps its `id` |
| Feed.TopLevelEntry | json_feed.py:21-26 | in a new feed, each top-level target key is present exactly when its keyword value is truthy, and then holds the translated value |
| Feed.ItemEntry | json_feed.py:27-34 | in an item, each target key is present exactly when its keyword value is truthy, and then holds the translated value |
| Feed.ItemDates | json_feed.py:54-64 | `date_published`/`date_modified` are present exactly when `pubdate`/`updateddate` are truthy, and then hold the formatted datetime, whose offset is within a day |
| Feed.ItemTags | json_feed.py:33-53 | truthy `tags` are stored as the list of one-character strings of their Markup text, in order |
| Feed.JSONFeed.constructor | json_feed.py:36-39 | the new feed is valid, is the enriched skeleton, carries the given title and has no items |
| Feed.JSONFeed.EnrichDict | json_feed.py:41-68 | the loop over the table returns what `Enriched` describes, including the first exception |
| Feed.JSONFeed.AddItem | json_feed.py:70-73 | on success, exactly the enriched `{'id': unique_id}` is appended to `items` and nothing else in the feed changes; on an exception, the feed is unchanged and the exception is returned |
| Generator.Translations | json_feed.py:95-96 | definition: the translations in the order the `extend` loop appends them; stated by `Generator.AllArticles` and `Generator.TranslationsLength` |
| Generator.TranslationsLength | json_feed.py:95-96 | the extending loop appends one entry per translation: `sum(len(a.translations))` entries |
| Generator.SortSorted | json_feed.py:97 | the sorted list has non-increasing dates |
| Generator.SortStable | json_feed.py:97 | for every date, the articles with that date keep their relative order |
| Generator.SortByDateDesc | json_feed.py:97 | the sort keeps length and multiset of articles |
| Generator.AllArticles | json_feed.py:94-97 | the list has `len(articles) + sum(len(a.translations))` entries and is a permutation of the articles followed by their translations; dates are non-increasing; ties keep their pre-sort order |
| Writer.ComposeTitle | json_feed.py:145-148 | a missing `SITENAME` raises `KeyError`; without a truthy qualifier the title is exactly `SITENAME` |
| Writer.QualifiedTitle | json_feed.py:145-146 | with string operands, the title is `SITENAME`, then ` - `, then the qualifier, and nothing else |
| Writer.TitleFailsIff | json_feed.py:145-148 | composing raises exactly when `SITENAME` is missing, or a qualifier is given and an operand is not a string; it names the `TypeError` operands |
| Writer.FeedArgs | json_feed.py:150-156 | the keyword arguments are exactly `link`, `feed_url`, `author`, `favicon`, `icon` and `description`; `link` is always truthy; a missing subtitle gives a falsy description |
| Writer.HomePageAlwaysSet | json_feed.py:151 | the home page is always the site URL with a trailing slash |
| Writer.DescriptionFromSubtitle | json_feed.py:156 | the description is present exactly when `SITESUBTITLE` is truthy, and is then its stripped Markup; a missing subtitle gives no description |
| Writer.AuthorFromContext | json_feed.py:153 | the author is present exactly when `AUTHOR` is truthy, and is then `{'name': str(Markup(author))}` |
| Writer.CopiedFromContext | json_feed.py:152-155 | the feed URL, favicon and icon (from `SITELOGO`) are copied unchanged, each exactly when truthy |
| Writer.JSONFeedWriter.CreateNewFeed | json_feed.py:141-157 | a non-`json` type yields the host writer's feed with no lookup and no error; otherwise a title error is returned as is, or a fresh valid feed with no items is returned. That feed's title is the stripped Markup of the composed title, and it is the skeleton enriched with the site metadata |

## Left out

- `JSONFeed.write` and `json.dump` (json_feed.py:75-81) are not modelled. They are file I/O.
- `Markup(value)` and `Markup.striptags` (json_feed.py:23, 30, 52, 150) are opaque, total functions. Exceptions raised inside them or inside `str()` are not modelled.
- Python dictionary iteration order is taken to be insertion order (Python 3.7 and later), so each table is a sequence in its written order. Under Python 2 the tables iterate in hash order, which the model does not capture. `Feed.ItemsFailIff`'s "`pubdate`'s error first" and `Feed.EnrichedFirstError`'s "first failing row" both rely on the written order.
- Python 2's `strftime`, which raises `ValueError` for years before 1900, is not modelled. Nor is the Python 2 `%z`, which never prints seconds.
- Python 2 `str()` raising `UnicodeEncodeError` on non-ASCII Markup text inside the `tr` lambdas (json_feed.py:26, 33-34) is not modelled.
- Feed.Skeleton and Writer.NewFeed are plain data (json_feed.py:37-38, 141-144). They carry no contract of their own; `Feed.SkeletonKept` and `Writer.JSONFeedWriter.CreateNewFeed` state what they hold.
- `Timestamp.Strftime`: assumes a four-digit year. The platform-dependent rendering of `%Y` for years below 1000 (unpadded on some C libraries) is not modelled.
- Offsets with a microsecond part, which `%z` prints as `±HHMMSS.ffffff`, are not represented. Offsets are whole seconds.
- `Generator.AllArticles`:
  - Dates are integer instants on one time line.
  - The `TypeError` Python raises when comparing naive and aware datetimes during the sort is not modelled.
  - The sort is a library call, so it is modelled by its result (a reference stable sort), not by Timsort's steps.
- The `FEED_JSON` call and the per-category, per-author and per-tag branches of `generate_feeds` (json_feed.py:89-91, 102-121) are not modelled. They are settings lookups and `write_feed` calls into the host framework.
- The `TRANSLATION_FEED_JSON` branch (json_feed.py:123-133) is not modelled. It uses `defaultdict` and `chain`, which are never imported, so it raises `NameError` whenever it runs.
- The superclass `_create_new_feed` (json_feed.py:142-144) is not modelled. The model returns the arguments it would receive, as a `Native` value.
- `register`, `get_generators` and `get_writer` (json_feed.py:160-170) are not modelled. They are signal hooks.
- Logging and the log-and-re-raise handler (json_feed.py:42, 46-47, 65-67) are not modelled. The re-raised exception is the `Err` result.
- `Writer.JSONFeedWriter`: `site_url` and `feed_url` are set by the host writer. Here the constructor sets them.
