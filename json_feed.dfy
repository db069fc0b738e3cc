/**
  The JSON Feed record builder: two translation tables, the table-driven remapper
  that copies truthy keyword arguments into a dictionary under their target keys,
  and the feed object that starts as `{version, title, items: []}` and collects
  one record per item.
 */
module Feed {
  import opened Values
  import opened Timestamp

  const VERSION := "https://jsonfeed.org/version/1"

  /** The `tr` transforms that occur in the tables. */
  datatype Transform =
    | StripTags   // Markup.striptags
    | WrapName    // lambda n: {'name': str(n)}
    | StringList  // lambda c: [str(t) for t in c]

  /** What an entry does with a truthy value: store it as it is, store the transform
      of its Markup, or store it formatted as a date. */
  datatype Rule = Copy | Tr(transform: Transform) | Date

  /** One row of a translation table: the keyword name, the target key and the rule. */
  datatype Entry = Entry(local: string, key: string, rule: Rule)

  /** The markup library the transforms call into, left opaque: `Markup(value)`, which
      always yields a str, and `Markup.striptags`. */
  datatype Markup = Markup(wrap: Value -> string, stripTags: string -> string)

  const TOP_LEVEL_TRANS: seq<Entry> := [
    Entry("link", "home_page_url", Copy),
    Entry("feed_url", "feed_url", Copy),
    Entry("description", "description", Tr(StripTags)),
    Entry("favicon", "favicon", Copy),
    Entry("icon", "icon", Copy),
    Entry("author", "author", Tr(WrapName))
  ]

  const ITEMS_TRANS: seq<Entry> := [
    Entry("link", "url", Copy),
    Entry("title", "title", Copy),
    Entry("content", "content_html", Copy),
    Entry("description", "description", Tr(StripTags)),
    Entry("pubdate", "date_published", Date),
    Entry("updateddate", "date_modified", Date),
    Entry("tags", "tags", Tr(StringList)),
    Entry("author", "author", Tr(WrapName))
  ]

  /** A transform applied to the Markup text of a value. The two lambdas see a str:
      `str(n)` of it is the text itself, and iterating over it yields its characters. */
  function ApplyTransform(t: Transform, text: string, markup: Markup): Value
  {
    match t
    case StripTags => Str(markup.stripTags(text))
    case WrapName => Dict(map["name" := Str(text)])
    case StringList => List(seq(|text|, i requires 0 <= i < |text| => Str([text[i]])))
  }

  /** A value the date branch can format: a datetime whose offset, if any, lies
      strictly within a day. */
  predicate DateAccepted(value: Value) {
    value.Stamp? && ZoneInRange(value.date.zone)
  }

  /** What the date branch raises on a value it cannot format: `value.tzinfo` on a
      non-datetime is an AttributeError, `%z` of an offset of a day or more a ValueError. */
  function DateError(value: Value): Error {
    if value.Stamp? then ValueError(value) else AttributeError(value, "tzinfo")
  }

  /** The value an entry stores for a truthy keyword value, or the exception raised
      while computing it. */
  function Translate(rule: Rule, value: Value, markup: Markup): (r: Result<Value>)
    ensures r.Err? <==> rule == Date && !DateAccepted(value)
    ensures r.Err? && !value.Stamp? ==> r.error == AttributeError(value, "tzinfo")
    ensures r.Err? && value.Stamp? ==> r.error == ValueError(value)
    ensures rule == Copy ==> r == Ok(value)
  {
    match rule
    case Copy => Ok(value)
    case Tr(t) => Ok(ApplyTransform(t, markup.wrap(value), markup))
    case Date =>
      if !value.Stamp? then Err(AttributeError(value, "tzinfo"))
      else if !ZoneInRange(value.date.zone) then Err(ValueError(value))
      else Ok(Str(FormatDate(value.date)))
  }

  /** A tzinfo a full day east of UTC is rejected: the date branch raises `ValueError`
      instead of printing `+24:00`. */
  lemma DayOffsetRaises(markup: Markup)
    ensures var v := Stamp(DateTime(2020, 1, 1, 0, 0, 0, Fixed(86400)));
      Translate(Date, v, markup) == Err(ValueError(v))
  {
  }

  /** What `_enrich_dict(d, table, kwargs)` leaves in `d`, entry by entry in table order;
      the first exception aborts it. */
  function Enriched(d: map<string, Value>, table: seq<Entry>, kwargs: map<string, Value>,
                    markup: Markup): (r: Result<map<string, Value>>)
    ensures r.Ok? ==> d.Keys <= r.value.Keys
    decreases |table|
  {
    if table == [] then Ok(d)
    else
      var value := Get(kwargs, table[0].local);
      if !Truthy(value) then Enriched(d, table[1..], kwargs, markup)
      else match Translate(table[0].rule, value, markup)
        case Err(e) => Err(e)
        case Ok(w) => Enriched(d[table[0].key := w], table[1..], kwargs, markup)
  }

  /** The target keys of the entries whose keyword value is truthy. */
  function WrittenKeys(table: seq<Entry>, kwargs: map<string, Value>): set<string>
  {
    if table == [] then {}
    else
      (if Truthy(Get(kwargs, table[0].local)) then {table[0].key} else {})
        + WrittenKeys(table[1..], kwargs)
  }

  /** Every target key of a table. */
  function TargetKeys(table: seq<Entry>): set<string>
  {
    set e | e in table :: e.key
  }

  predicate DistinctKeys(table: seq<Entry>) {
    forall i, j :: 0 <= i < j < |table| ==> table[i].key != table[j].key
  }

  /** A truthy keyword value the entry cannot translate. */
  predicate Fails(e: Entry, kwargs: map<string, Value>, markup: Markup) {
    Truthy(Get(kwargs, e.local)) && Translate(e.rule, Get(kwargs, e.local), markup).Err?
  }

  // ---------------------------------------------------------------------------
  // What the remapper promises

  lemma {:induction false} WrittenKeysAt(table: seq<Entry>, kwargs: map<string, Value>, k: string)
    ensures k in WrittenKeys(table, kwargs)
      <==> exists i :: 0 <= i < |table| && table[i].key == k && Truthy(Get(kwargs, table[i].local))
  {
    if table != [] {
      WrittenKeysAt(table[1..], kwargs, k);
      if k in WrittenKeys(table[1..], kwargs) {
        var i :| 0 <= i < |table[1..]| && table[1..][i].key == k && Truthy(Get(kwargs, table[1..][i].local));
        assert table[i + 1] == table[1..][i];
      }
      if exists i :: 0 <= i < |table| && table[i].key == k && Truthy(Get(kwargs, table[i].local)) {
        var i :| 0 <= i < |table| && table[i].key == k && Truthy(Get(kwargs, table[i].local));
        if i > 0 {
          assert table[1..][i - 1] == table[i];
        }
      }
    }
  }

  lemma WrittenAreTargets(table: seq<Entry>, kwargs: map<string, Value>)
    ensures WrittenKeys(table, kwargs) <= TargetKeys(table)
  {
    forall k | k in WrittenKeys(table, kwargs)
      ensures k in TargetKeys(table)
    {
      WrittenKeysAt(table, kwargs, k);
      var i :| 0 <= i < |table| && table[i].key == k && Truthy(Get(kwargs, table[i].local));
      assert table[i] in table;
    }
  }

  lemma {:induction false} UntargetedNotWritten(table: seq<Entry>, kwargs: map<string, Value>, k: string)
    requires forall i :: 0 <= i < |table| ==> table[i].key != k
    ensures k !in WrittenKeys(table, kwargs)
  {
    if table != [] {
      forall i | 0 <= i < |table[1..]|
        ensures table[1..][i].key != k
      {
        assert table[1..][i] == table[i + 1];
      }
      UntargetedNotWritten(table[1..], kwargs, k);
    }
  }

  /** The remapper adds exactly the target keys of the truthy entries, and every key it
      does not target keeps its value. */
  lemma {:induction false} EnrichedKeys(d: map<string, Value>, table: seq<Entry>,
                                        kwargs: map<string, Value>, markup: Markup)
    requires Enriched(d, table, kwargs, markup).Ok?
    ensures var r := Enriched(d, table, kwargs, markup).value;
      && r.Keys == d.Keys + WrittenKeys(table, kwargs)
      && forall k :: k in d && k !in WrittenKeys(table, kwargs) ==> r[k] == d[k]
    decreases |table|
  {
    if table != [] {
      var value := Get(kwargs, table[0].local);
      if !Truthy(value) {
        EnrichedKeys(d, table[1..], kwargs, markup);
      } else {
        var w := Translate(table[0].rule, value, markup).value;
        EnrichedKeys(d[table[0].key := w], table[1..], kwargs, markup);
      }
    }
  }

  /** A truthy entry's target key ends up holding its translated value when the
      table's target keys are distinct. */
  lemma {:induction false} TruthyEntryWritten(d: map<string, Value>, table: seq<Entry>,
                                              kwargs: map<string, Value>, markup: Markup, i: nat)
    requires DistinctKeys(table) && i < |table| && Truthy(Get(kwargs, table[i].local))
    requires Enriched(d, table, kwargs, markup).Ok?
    ensures Translate(table[i].rule, Get(kwargs, table[i].local), markup).Ok?
    ensures var r := Enriched(d, table, kwargs, markup).value;
      table[i].key in r
      && r[table[i].key] == Translate(table[i].rule, Get(kwargs, table[i].local), markup).value
    decreases |table|
  {
    var value := Get(kwargs, table[0].local);
    var d' := if Truthy(value) then d[table[0].key := Translate(table[0].rule, value, markup).value] else d;
    assert Enriched(d, table, kwargs, markup) == Enriched(d', table[1..], kwargs, markup);
    if i == 0 {
      EnrichedKeys(d', table[1..], kwargs, markup);
      forall j | 0 <= j < |table[1..]|
        ensures table[1..][j].key != table[0].key
      {
        assert table[1..][j] == table[j + 1];
      }
      UntargetedNotWritten(table[1..], kwargs, table[0].key);
    } else {
      assert table[1..][i - 1] == table[i];
      TruthyEntryWritten(d', table[1..], kwargs, markup, i - 1);
    }
  }

  /** A missing or falsy keyword value writes nothing: its target key is present
      afterwards only if it was before, with its old value, when the table's target
      keys are distinct. */
  lemma FalsyEntryAbsent(d: map<string, Value>, table: seq<Entry>,
                         kwargs: map<string, Value>, markup: Markup, i: nat)
    requires DistinctKeys(table) && i < |table| && !Truthy(Get(kwargs, table[i].local))
    requires Enriched(d, table, kwargs, markup).Ok?
    ensures var r := Enriched(d, table, kwargs, markup).value;
      && (table[i].key in r <==> table[i].key in d)
      && (table[i].key in d ==> r[table[i].key] == d[table[i].key])
  {
    EnrichedKeys(d, table, kwargs, markup);
    WrittenKeysAt(table, kwargs, table[i].key);
  }

  /** The remapper raises exactly when some truthy entry cannot be translated. */
  lemma {:induction false} EnrichedFailsIff(d: map<string, Value>, table: seq<Entry>,
                                            kwargs: map<string, Value>, markup: Markup)
    ensures Enriched(d, table, kwargs, markup).Err?
      <==> exists i :: 0 <= i < |table| && Fails(table[i], kwargs, markup)
    decreases |table|
  {
    if table != [] {
      var value := Get(kwargs, table[0].local);
      var d' := if Truthy(value) && !Fails(table[0], kwargs, markup)
                then d[table[0].key := Translate(table[0].rule, value, markup).value] else d;
      EnrichedFailsIff(d', table[1..], kwargs, markup);
      if exists i :: 0 <= i < |table[1..]| && Fails(table[1..][i], kwargs, markup) {
        var i :| 0 <= i < |table[1..]| && Fails(table[1..][i], kwargs, markup);
        assert table[i + 1] == table[1..][i];
      }
      if exists i :: 0 <= i < |table| && Fails(table[i], kwargs, markup) {
        var i :| 0 <= i < |table| && Fails(table[i], kwargs, markup);
        if i > 0 {
          assert table[1..][i - 1] == table[i];
        }
      }
    }
  }

  /** When it raises, the exception is that of the first entry that cannot be translated. */
  lemma {:induction false} EnrichedFirstError(d: map<string, Value>, table: seq<Entry>,
                                              kwargs: map<string, Value>, markup: Markup, i: nat)
    requires i < |table| && Fails(table[i], kwargs, markup)
    requires forall j :: 0 <= j < i ==> !Fails(table[j], kwargs, markup)
    ensures Enriched(d, table, kwargs, markup)
      == Err(Translate(table[i].rule, Get(kwargs, table[i].local), markup).error)
    decreases |table|
  {
    if i > 0 {
      var value := Get(kwargs, table[0].local);
      assert !Fails(table[0], kwargs, markup);
      var d' := if Truthy(value) then d[table[0].key := Translate(table[0].rule, value, markup).value] else d;
      assert table[1..][i - 1] == table[i];
      forall j | 0 <= j < i - 1
        ensures !Fails(table[1..][j], kwargs, markup)
      {
        assert table[1..][j] == table[j + 1];
      }
      EnrichedFirstError(d', table[1..], kwargs, markup, i - 1);
    }
  }

  // ---------------------------------------------------------------------------
  // The two tables

  /** No two entries of a table share a target key. */
  lemma TopLevelDistinct()
    ensures DistinctKeys(TOP_LEVEL_TRANS)
  {
  }

  lemma ItemsDistinct()
    ensures DistinctKeys(ITEMS_TRANS)
  {
  }

  /** The keys the top-level table can write: not `version`, `title` or `items`. */
  lemma TopLevelTargets()
    ensures TargetKeys(TOP_LEVEL_TRANS)
      == {"home_page_url", "feed_url", "description", "favicon", "icon", "author"}
  {
  }

  /** The keys the item table can write: not `id`. */
  lemma ItemsTargets()
    ensures TargetKeys(ITEMS_TRANS)
      == {"url", "title", "content_html", "description", "date_published", "date_modified",
          "tags", "author"}
  {
  }

  /** The top-level table has no date entry, so enriching the feed never raises. */
  lemma TopLevelNeverFails(d: map<string, Value>, kwargs: map<string, Value>, markup: Markup)
    ensures Enriched(d, TOP_LEVEL_TRANS, kwargs, markup).Ok?
  {
    EnrichedFailsIff(d, TOP_LEVEL_TRANS, kwargs, markup);
  }

  /** A date argument that the date branch rejects: truthy, yet not a datetime with an
      offset within a day. */
  predicate BadDate(kwargs: map<string, Value>, name: string) {
    Truthy(Get(kwargs, name)) && !DateAccepted(Get(kwargs, name))
  }

  /** Only a date row can raise, and it raises exactly on a bad date argument. */
  lemma OnlyDatesFail(e: Entry, kwargs: map<string, Value>, markup: Markup)
    ensures Fails(e, kwargs, markup) <==> e.rule == Date && BadDate(kwargs, e.local)
  {
  }

  /** Enriching an item raises exactly when `pubdate` or `updateddate` is truthy but
      cannot be formatted, and `pubdate` is examined first. */
  lemma ItemsFailIff(d: map<string, Value>, kwargs: map<string, Value>, markup: Markup)
    ensures Enriched(d, ITEMS_TRANS, kwargs, markup).Err?
      <==> BadDate(kwargs, "pubdate") || BadDate(kwargs, "updateddate")
    ensures BadDate(kwargs, "pubdate") ==>
      Enriched(d, ITEMS_TRANS, kwargs, markup) == Err(DateError(Get(kwargs, "pubdate")))
    ensures !BadDate(kwargs, "pubdate") && BadDate(kwargs, "updateddate") ==>
      Enriched(d, ITEMS_TRANS, kwargs, markup) == Err(DateError(Get(kwargs, "updateddate")))
  {
    EnrichedFailsIff(d, ITEMS_TRANS, kwargs, markup);
    forall i | 0 <= i < |ITEMS_TRANS|
      ensures Fails(ITEMS_TRANS[i], kwargs, markup)
        <==> (i == 4 && BadDate(kwargs, "pubdate")) || (i == 5 && BadDate(kwargs, "updateddate"))
    {
      OnlyDatesFail(ITEMS_TRANS[i], kwargs, markup);
    }
    if BadDate(kwargs, "pubdate") {
      EnrichedFirstError(d, ITEMS_TRANS, kwargs, markup, 4);
    } else if BadDate(kwargs, "updateddate") {
      EnrichedFirstError(d, ITEMS_TRANS, kwargs, markup, 5);
    }
  }

  /** The dictionary a feed starts from. */
  function Skeleton(title: Value): map<string, Value> {
    map["version" := Str(VERSION), "title" := title, "items" := List([])]
  }

  /** A key of the starting dictionary that no entry targets survives enriching. */
  lemma UntargetedKept(d: map<string, Value>, table: seq<Entry>,
                       kwargs: map<string, Value>, markup: Markup, k: string)
    requires Enriched(d, table, kwargs, markup).Ok?
    requires k in d && forall i :: 0 <= i < |table| ==> table[i].key != k
    ensures var r := Enriched(d, table, kwargs, markup).value;
      k in r && r[k] == d[k]
  {
    EnrichedKeys(d, table, kwargs, markup);
    UntargetedNotWritten(table, kwargs, k);
  }

  /** Enriching the skeleton keeps `version`, `title` and the empty `items`. */
  lemma SkeletonKept(title: Value, kwargs: map<string, Value>, markup: Markup)
    ensures Enriched(Skeleton(title), TOP_LEVEL_TRANS, kwargs, markup).Ok?
    ensures var f := Enriched(Skeleton(title), TOP_LEVEL_TRANS, kwargs, markup).value;
      && "version" in f && f["version"] == Str(VERSION)
      && "title" in f && f["title"] == title
      && "items" in f && f["items"] == List([])
  {
    var s := Skeleton(title);
    TopLevelNeverFails(s, kwargs, markup);
    UntargetedKept(s, TOP_LEVEL_TRANS, kwargs, markup, "version");
    UntargetedKept(s, TOP_LEVEL_TRANS, kwargs, markup, "title");
    UntargetedKept(s, TOP_LEVEL_TRANS, kwargs, markup, "items");
  }

  /** Enriching an item keeps its `id`. */
  lemma IdKept(uniqueId: Value, kwargs: map<string, Value>, markup: Markup)
    requires Enriched(map["id" := uniqueId], ITEMS_TRANS, kwargs, markup).Ok?
    ensures var item := Enriched(map["id" := uniqueId], ITEMS_TRANS, kwargs, markup).value;
      "id" in item && item["id"] == uniqueId
  {
    UntargetedKept(map["id" := uniqueId], ITEMS_TRANS, kwargs, markup, "id");
  }

  /** Each top-level entry of a new feed: its target key is present exactly when its
      keyword value is truthy, and then holds the translated value. */
  lemma TopLevelEntry(title: Value, kwargs: map<string, Value>, markup: Markup, i: nat)
    requires i < |TOP_LEVEL_TRANS|
    ensures Enriched(Skeleton(title), TOP_LEVEL_TRANS, kwargs, markup).Ok?
    ensures var f := Enriched(Skeleton(title), TOP_LEVEL_TRANS, kwargs, markup).value;
      var e := TOP_LEVEL_TRANS[i];
      && (e.key in f <==> Truthy(Get(kwargs, e.local)))
      && (Truthy(Get(kwargs, e.local)) ==>
            f[e.key] == Translate(e.rule, Get(kwargs, e.local), markup).value)
  {
    TopLevelNeverFails(Skeleton(title), kwargs, markup);
    TopLevelDistinct();
    var e := TOP_LEVEL_TRANS[i];
    assert e.key !in Skeleton(title);
    if Truthy(Get(kwargs, e.local)) {
      TruthyEntryWritten(Skeleton(title), TOP_LEVEL_TRANS, kwargs, markup, i);
    } else {
      FalsyEntryAbsent(Skeleton(title), TOP_LEVEL_TRANS, kwargs, markup, i);
    }
  }

  /** Each entry of an item that enriches without raising: its target key is present
      exactly when its keyword value is truthy, and then holds the translated value. */
  lemma ItemEntry(uniqueId: Value, kwargs: map<string, Value>, markup: Markup, i: nat)
    requires i < |ITEMS_TRANS|
    requires Enriched(map["id" := uniqueId], ITEMS_TRANS, kwargs, markup).Ok?
    ensures var item := Enriched(map["id" := uniqueId], ITEMS_TRANS, kwargs, markup).value;
      var e := ITEMS_TRANS[i];
      && (e.key in item <==> Truthy(Get(kwargs, e.local)))
      && (Truthy(Get(kwargs, e.local)) ==>
            Translate(e.rule, Get(kwargs, e.local), markup).Ok?
            && item[e.key] == Translate(e.rule, Get(kwargs, e.local), markup).value)
  {
    ItemsDistinct();
    var e := ITEMS_TRANS[i];
    assert e.key !in map["id" := uniqueId];
    if Truthy(Get(kwargs, e.local)) {
      TruthyEntryWritten(map["id" := uniqueId], ITEMS_TRANS, kwargs, markup, i);
    } else {
      FalsyEntryAbsent(map["id" := uniqueId], ITEMS_TRANS, kwargs, markup, i);
    }
  }

  /** An item's dates are the formatted timestamps of its `pubdate` and `updateddate`. */
  lemma ItemDates(uniqueId: Value, kwargs: map<string, Value>, markup: Markup)
    requires Enriched(map["id" := uniqueId], ITEMS_TRANS, kwargs, markup).Ok?
    ensures var item := Enriched(map["id" := uniqueId], ITEMS_TRANS, kwargs, markup).value;
      && ("date_published" in item <==> "pubdate" in kwargs && Truthy(kwargs["pubdate"]))
      && ("date_published" in item ==>
            DateAccepted(kwargs["pubdate"])
            && item["date_published"] == Str(FormatDate(kwargs["pubdate"].date)))
      && ("date_modified" in item <==> "updateddate" in kwargs && Truthy(kwargs["updateddate"]))
      && ("date_modified" in item ==>
            DateAccepted(kwargs["updateddate"])
            && item["date_modified"] == Str(FormatDate(kwargs["updateddate"].date)))
  {
    ItemEntry(uniqueId, kwargs, markup, 4);
    ItemEntry(uniqueId, kwargs, markup, 5);
  }

  /** `tags` go through `Markup` first, so the list holds the one-character strings of
      the Markup text, in order, rather than the tags themselves. */
  lemma ItemTags(uniqueId: Value, kwargs: map<string, Value>, markup: Markup)
    requires Enriched(map["id" := uniqueId], ITEMS_TRANS, kwargs, markup).Ok?
    requires "tags" in kwargs && Truthy(kwargs["tags"])
    ensures var item := Enriched(map["id" := uniqueId], ITEMS_TRANS, kwargs, markup).value;
      var text := markup.wrap(kwargs["tags"]);
      && "tags" in item && item["tags"].List?
      && |item["tags"].elems| == |text|
      && forall i :: 0 <= i < |text| ==> item["tags"].elems[i] == Str([text[i]])
  {
    ItemEntry(uniqueId, kwargs, markup, 6);
  }

  /** An item record: a dictionary with an `id`. */
  predicate IsItem(v: Value) {
    v.Dict? && "id" in v.fields
  }

  class JSONFeed {
    var feed: map<string, Value>
    const markup: Markup

    /** `version`, `title` and `items` stay in the feed; `items` holds item records. */
    ghost predicate Valid()
      reads this
    {
      && "version" in feed && feed["version"] == Str(VERSION)
      && "title" in feed
      && "items" in feed && feed["items"].List?
      && forall v :: v in feed["items"].elems ==> IsItem(v)
    }

    ghost function Items(): seq<Value>
      reads this
      requires Valid()
    {
      feed["items"].elems
    }

    /** `JSONFeed(title, **kwargs)` */
    constructor (title: Value, kwargs: map<string, Value>, markup: Markup)
      ensures Valid() && this.markup == markup
      ensures Enriched(Skeleton(title), TOP_LEVEL_TRANS, kwargs, markup) == Ok(feed)
      ensures feed["title"] == title && Items() == []
    {
      var r := EnrichDict(Skeleton(title), TOP_LEVEL_TRANS, kwargs, markup);
      SkeletonKept(title, kwargs, markup);
      feed := r.value;
      this.markup := markup;
    }

    /** `_enrich_dict(dict_, translations, kwargs)`: walks the table, copying the
        truthy keyword values, translated, into the dictionary. */
    static method EnrichDict(d: map<string, Value>, table: seq<Entry>,
                             kwargs: map<string, Value>, markup: Markup)
      returns (r: Result<map<string, Value>>)
      ensures r == Enriched(d, table, kwargs, markup)
    {
      var dict := d;
      var i := 0;
      while i < |table|
        invariant 0 <= i <= |table|
        invariant Enriched(dict, table[i..], kwargs, markup) == Enriched(d, table, kwargs, markup)
      {
        assert table[i..][1..] == table[i + 1..];
        var spec := table[i];
        var value := Get(kwargs, spec.local);
        if Truthy(value) {
          var translated := Translate(spec.rule, value, markup);
          if translated.Err? {
            return Err(translated.error);
          }
          dict := dict[spec.key := translated.value];
        }
        i := i + 1;
      }
      return Ok(dict);
    }

    /** `add_item(unique_id, **kwargs)`: builds `{'id': unique_id}`, enriches it and
        appends it; when enriching raises, nothing is appended. */
    method AddItem(uniqueId: Value, kwargs: map<string, Value>) returns (raised: Option<Error>)
      requires Valid()
      modifies this
      ensures Valid()
      ensures match Enriched(map["id" := uniqueId], ITEMS_TRANS, kwargs, markup)
        case Ok(item) =>
          && raised == None && "id" in item && item["id"] == uniqueId
          && feed == old(feed)["items" := List(old(Items()) + [Dict(item)])]
        case Err(e) =>
          raised == Some(e) && feed == old(feed)
    {
      var r := EnrichDict(map["id" := uniqueId], ITEMS_TRANS, kwargs, markup);
      if r.Err? {
        return Some(r.error);
      }
      IdKept(uniqueId, kwargs, markup);
      var item := Dict(r.value);
      assert IsItem(item);
      var items := feed["items"].elems + [item];
      assert forall v :: v in items ==> IsItem(v);
      feed := feed["items" := List(items)];
      raised := None;
    }
  }
}
